# Verification of the image pipeline engine and its XML library

The repository's camera framework runs every snapshot through a graph of processing nodes. This project models
the engine that does it (`mivifwk/mialgoengine`), two pieces of the layer above it (`mivifwk/mizone`), and the
XML parser, printer and DOM used by the factory tool (`factory_cmd/factory_tool`), and proves what each of them
is for. Protocols between threads are state machines whose steps are the sections the code runs under one lock,
and what is proved of them holds in every state of every interleaving. Code that works in place is written in
place, as classes and loops, and proved against functions or against those steps.

**Pipeline engine**

- `Contraction`, `NodePrune`: removing disabled nodes. `Contraction` says, without an algorithm, what it means to
  contract a graph along joined links, that the joins determine the result, and that kept nodes reach each other as
  before. `NodePrune` has the forwarding table, chased to its roots, and shows that it computes the contraction
  exactly if no link is asked to join twice at one end.
- `PortPrune`, `PortMixed`: disabling ports. The work list deletes the least closed set of links, each once. A
  request whose link was already deleted by another makes the code erase past the end of a list; for lists of
  requests of one direction the condition under which this does not happen is exact: no named link is implied by
  the others. It suffices for mixed lists, direction by direction, where the order of requests may count too.
- `Rebuild`: the two in sequence, and the typing of links.
- `Scheduler`, `SchedulerRuns`: one dispatcher, any number of workers, in-degree counters, a run queue, an in-flight
  count that may be decremented before it is incremented, early notices to frame-by-frame children, and errors.
- `SchedulerFlow`, `SchedulerEnds`: the frames that pass between the nodes meanwhile, and what becomes of a run: each
  ends, and it ends either with the dispatcher or with threads asleep for ever. When that may happen is exact.
- `Buffers`, `Handover`: images in queues under a use count, shared by in-place and virtual nodes; they all go home
  once. Which queues they go to on the way is said by mode bits and links.
- `PipelineRuns`: both together, with the clean-up that follows, every thread at its own place in what it does with
  images; nothing is missing in the end.
- `BufferPool`: the pool that internal images come from, grown under one lock and trimmed under others.
- `NodeWorkers`: how a node gets threads for its requests, one at a time or one per request.
- `ThreadPool`: the pool of threads, with its growing and retiring.
- `PlaneLayout`: where the planes of an image lie in the buffer allocated for it.

**Above the engine**

- `ReturnWindow`: which frames of a stream are listed as pending when it goes offline.
- `SnapshotController`: muting the application and letting it continue.

**XML**

- `Utf8`, `XmlText`, `XmlTokens`, `XmlMeaning`: encoding, escaping, and unescaping of character data, what bytes, line
  ends and references stand for, and when unescaping gives what is meant.
- `XmlParse`, `XmlGrammar`: the parser's loops refine a recursive function over a buffer, and that function accepts
  exactly a grammar that is stated without it, with the same ranges.
- `XmlPrint`, `XmlRoundTrip`: the compact print that the visitor refines, and the round trip for every canonical
  document.
- `XmlStrPairs`, `XmlLazy`: strings are unescaped lazily, in the buffer they share, in any order, once or repeatedly.
- `XmlDom`: the doubly linked children of a node stand for a sequence under unlinking and inserting.
- `MemPool`: the free list under the DOM.

`Collections` and `Links` hold what several of them use.

Where the code does not do what its comments, or its purpose, promise, the code is followed:

- `factory_cmd/factory_tool/tinyxml2.cpp:1841-1845` says that a duplicate attribute goes undetected; the test five
  lines above finds it and reports an error.
- `factory_cmd/factory_tool/tinyxml2.cpp:341-345` leaves whatever byte stood at the write position in place of the
  `&` of an unknown reference, so unescaping is the inverse of escaping but not always the decoding that XML 1.0 asks
  for; `XmlMeaning.DecodesAsMeant` says exactly when it is.
- `factory_cmd/factory_tool/tinyxml2.cpp:924-931` follows a null pointer when the last child is moved behind the
  child it already stands behind; `XmlDom.XMLNode.InsertAfterChild` says exactly when.
- `factory_cmd/factory_tool/tinyxml2.cpp:1898-1923` accepts more than XML: a sealed tag with a slash in front of its
  name, attributes in end tags, and an end tag that closes nothing, which ends the document;
  `XmlGrammar.DocumentExactly` says exactly what.
- `mivifwk/mialgoengine/ThreadPool.cpp:72-80` speaks of twice the number of queued tasks; the product is taken in
  32 bits, and `ThreadPool.AlwaysStaffed` says exactly when that matters.
- `mivifwk/mialgoengine/MiaPipelinePruner.cpp:594-630` lets two through paths of one instance share a port, of which
  only one link is left; `NodePrune.PipelineNodePrune` says exactly when no link is lost.
- `mivifwk/mialgoengine/MiaPipeline.cpp:778-804` leaves the children of a failed node alone; one that was started early
  then waits for ever for its next frame, and so does the dispatcher. `SchedulerEnds.SleepsExactly` says which
  pipelines allow it.
- `mivifwk/mialgoengine/MiaImage.cpp:280-297` places implementation-defined images with more padding than
  `mivifwk/mialgoengine/MiaBufferManager.cpp:227-229` allocates; `PlaneLayout.WidePlanesExactly` says for which sizes
  the planes fit all the same.

## Main results

- Scheduling: `SchedulerRuns.ExecutesExactlyFed`, `QueuedOnceAfterInputs`, `WaitSeesInFlight`, `ErrorFreezesQueue`;
  `SchedulerEnds.StuckExactly`, `FlowsUnlessFailed`, `RunsEnd`, `SleepsExactly`.
- Images: `Buffers.EveryFrameGoesHome`, `Handover.HandedOn`, `PipelineRuns.AllHomeInTheEnd`, `LateFramesGoHome`,
  `CanContinue`; `BufferPool.PoolSafe`.
- Pruning: `NodePrune.PipelineNodePrune`, `Contraction.ContractionUnique`, `ContractedEnds`, `ReachabilityKept`;
  `PortPrune.InputPruning`, `OutputPruning`, `InputMeans`, `OutputMeans`, `PortMixed.MixedPruning`;
  `Rebuild.RebuildLinks`.
- Threads: `ThreadPool.AllRunOnce`, `AlwaysStaffed`; `NodeWorkers.OneWorker`, `PriorityOrder`, `NeverEmptyHanded`.
- The layer above: `ReturnWindow.OfflinePending`, `SnapshotController.CaughtUp`, `PlaneLayout.RowsInside`,
  `WidePlanesExactly`.
- XML: `XmlGrammar.DocumentExactly`, `XmlRoundTrip.RoundTrip`, `XmlTokens.TokensRead`, `XmlMeaning.DecodesAsMeant`,
  `XmlLazy.ReadSelection`, `XmlStrPairs.DocumentLaid`, `Utf8.WellFormedIffScalar`, `EveryWellFormed`;
  `XmlDom.XMLNode.InsertAfterChild`; `MemPool.MemPoolT.Alloc`.

`dafny verify dfyconfig.toml` checks the project.

## Model

| member | source | states |
|---|---|---|
| SchedulerRuns.ExecutesExactlyFed | mivifwk/mialgoengine/MiaPipeline.cpp:96-188 | A run that ends without an error has executed, to the end, exactly the nodes that lie in every set closed under "a known instance all of whose internal inputs come from the set is in it": the nodes transitively fed by source links, by a definition that mentions no queue or counter |
| SchedulerRuns.QueuedOnceAfterInputs | mivifwk/mialgoengine/MiaPipeline.cpp:766-894 | In every state of every interleaving no node has been queued twice, the dispatcher never takes from an empty queue, no delivery finds its counter missing, and every internal input of a queued node has been delivered by a node that was executed: for an ordinary destination, by one that has finished and walked past the link |
| SchedulerRuns.WaitSeesInFlight | mivifwk/mialgoengine/MiaPipeline.cpp:163-193 | Whenever the wait condition is tested `mRunningNodeNum` is the number of nodes dispatched and not yet signalled, although a worker may decrement first; it is one short only between hand-over and count; at loop exit nothing is queued and nothing is in flight |
| SchedulerRuns.ErrorFreezesQueue | mivifwk/mialgoengine/MiaPipeline.cpp:795-832 | Once `mHasProcessError` is set, what has ever been queued stays the same for the rest of the run |
| SchedulerRuns.StepInv | mivifwk/mialgoengine/MiaPipeline.cpp:163-193 | Every atomic step, of the dispatcher or of a worker, keeps the whole invariant on queue, counters, deliveries, workers and in-flight count |
| SchedulerRuns.RunInv | mivifwk/mialgoengine/MiaPipeline.cpp:96-193 | The invariant holds in every state of every run from a prepared pipeline |
| SchedulerRuns.DeliverQueues | mivifwk/mialgoengine/MiaPipeline.cpp:818-826 | Without an error, a delivery queues the destination exactly when it was never queued and all its internal inputs are now delivered |
| SchedulerRuns.EarlyKeeps | mivifwk/mialgoengine/MiaPipeline.cpp:834-894 | A notice sent between two frames, to a frame-by-frame child on an early link, keeps the invariant, whether or not it wakes the dispatcher |
| SchedulerRuns.PassesMeans | mivifwk/mialgoengine/MiaPipeline.cpp:896-919 | A finished node hands its inputs on if and only if its virtual bit is set, or its in-place bit is and it has a single output link, which leads neither to a sink nor to a virtual sink |
| SchedulerRuns.EarlyMeans | mivifwk/mialgoengine/MiaPipeline.cpp:834-894 | The links on which early notices are sent, from mode bits and links: those to frame-by-frame children, all output links of a node that hands on its inputs and has the bit for that, and only the first of one that has the bit for outputs |
| SchedulerFlow.FlowInv | mivifwk/mialgoengine/MiaPipeline.cpp:293-316 | In every state of every run: no node has taken more frames than were put behind its link; a node has put exactly as many frames on its early links as it has finished; without expediting, a link that was counted has a frame, and all of them once its source has walked past it; only early links of nodes with several frames are counted before that; sources were queued before the nodes they feed |
| SchedulerFlow.WakeKept | mivifwk/mialgoengine/MiaPipeline.cpp:179-192 | Every step keeps it true that no wake-up is lost: while the dispatcher sleeps and has not been told to look again, a node is in flight, and if one has been queued meanwhile, some finished node has yet to say its last word |
| SchedulerFlow.SharedKept | mivifwk/mialgoengine/MiaNode.cpp:1170-1181 | Handing frames on between two of its own keeps a node's count of frames and notices on every early link |
| SchedulerFlow.ArrivedKept | mivifwk/mialgoengine/MiaPipeline.cpp:811-826 | A finished node's walk over its links leaves behind each of them all the frames that its child waits for |
| SchedulerEnds.StuckExactly | mivifwk/mialgoengine/MiaPipeline.cpp:163-193 | Before the dispatcher has finished, no thread has a step if and only if the dispatcher is asleep, not told to look again, with nothing queued, and every node in flight is a frame-by-frame node asleep on an empty queue behind another node; in every state of every run, expedited or not |
| SchedulerEnds.StuckBehindFailure | mivifwk/mialgoengine/MiaPipeline.cpp:778-804 | In such a state of a run that was not expedited, each sleeping node stands in a chain of sleeping nodes, each fed by the next, that ends with a node that has failed |
| SchedulerEnds.FlowsUnlessFailed | mivifwk/mialgoengine/MiaPipeline.cpp:163-193 | No deadlock without a failure: in every state of every run that has no error and was not expedited, some thread has a step other than to fail, until the dispatcher has finished |
| SchedulerEnds.RunsEnd | mivifwk/mialgoengine/MiaPipeline.cpp:163-193 | Every run is over after a number of steps that the pipeline and its first state determine |
| SchedulerEnds.SleepsExactly | mivifwk/mialgoengine/MiaPipeline.cpp:834-894 | Some run, not expedited, ends with threads asleep for ever if and only if some node that is transitively fed and takes more than one frame has an early link to a known node that waits for more than one |
| SchedulerEnds.TwoInARowSleep | mivifwk/mialgoengine/MiaNode.cpp:1170-1181 | Two frame-by-frame nodes in a row, the first in place and handing on its inputs: the first fails on its second frame, and a run ends with the second asleep in `waitAndPop` and the dispatcher in its wait |
| SchedulerEnds.StrandsAsleep | mivifwk/mialgoengine/MiaPipeline.cpp:778-804 | From any such early link, a run that ends asleep |
| Scheduler.CountsAll | mivifwk/mialgoengine/MiaPipeline.cpp:96-126 | The counting loop leaves a counter for exactly the nodes with an input link, equal to the number of their internal input links |
| Scheduler.Pipeline.Prepare | mivifwk/mialgoengine/MiaPipeline.cpp:96-161 | After preparation the queue holds, once each, exactly the nodes that have inputs and no internal ones; counters are left for exactly the nodes that wait, each equal to its number of internal inputs |
| Scheduler.Pipeline.CountInputs | mivifwk/mialgoengine/MiaPipeline.cpp:96-126 | The counting loop over the links leaves the counter map that `CountsAll` characterises |
| Scheduler.Pipeline.QueueReady | mivifwk/mialgoengine/MiaPipeline.cpp:140-161 | Moves exactly the nodes whose counter is zero from the counter map to the queue, without repetition, whatever the order of the walk |
| Scheduler.Pipeline.TakeNext | mivifwk/mialgoengine/MiaPipeline.cpp:166-172 | Takes the head of the queue |
| Scheduler.Pipeline.CountDispatched | mivifwk/mialgoengine/MiaPipeline.cpp:178-187 | Counts the node if it was found and waits exactly when the queue is empty |
| Scheduler.Pipeline.NotifyChild | mivifwk/mialgoengine/MiaPipeline.cpp:818-826 | One locked delivery: nothing after an error; otherwise one less to wait for, and queued when that is zero |
| Scheduler.Pipeline.SignalOk | mivifwk/mialgoengine/MiaPipeline.cpp:829-831 | One node less in flight, and nothing else changed |
| Scheduler.Pipeline.SignalError | mivifwk/mialgoengine/MiaPipeline.cpp:795-804 | One node less in flight and the error flag set, and nothing else changed |
| Buffers.EveryFrameGoesHome | mivifwk/mialgoengine/MiaPipeline.cpp:687-731 | In every state of every interleaving a frame has been given back at most once, and no image is given back, or in the pool, while any queue or thread still holds it; once queues and hands are empty every source or sink frame has been given back exactly once and every internal image lies in the pool exactly once |
| Buffers.RunConserves | mivifwk/mialgoengine/MiaPipeline.cpp:236-420 | In every state of every interleaving an image's use count is the number of queue slots and hands that hold it, and an image is at home exactly when that is zero |
| Buffers.ApplyConserves | mivifwk/mialgoengine/MiaPipeline.cpp:570-731 | Every atomic operation (arrive, grow, acquire, pop, push, share, release, close) keeps it true that use counts are the numbers of holders and that an image is at home exactly when nobody holds it |
| Buffers.DrainedHome | mivifwk/mialgoengine/MiaPipeline.cpp:687-731 | Conservation with empty queues and hands puts every image home, once, and nowhere else |
| Buffers.PassOnAppends | mivifwk/mialgoengine/MiaPipeline.cpp:361-381 | Handing an image to children appends it to each of their queues |
| Handover.HandedOn | mivifwk/mialgoengine/MiaPipeline.cpp:342-420 | What a finished node's release of its inputs does to any queue, from mode bits and links: if the node must hand on, each queue that its output links lead to gains every image released, in order, once per link; otherwise no queue gains anything; the using queues keep what is behind the first image, or nothing |
| Buffers.RelievedAppends | mivifwk/mialgoengine/MiaPipeline.cpp:383-391 | Relieving a queue appends its whole content, in order, to the queue of every child |
| Buffers.Session.TryPop | mivifwk/mialgoengine/ThreadSafeQueue.h:58-69 | The head, or nothing from an empty queue; conservation kept |
| Buffers.Session.PushImage | mivifwk/mialgoengine/ThreadSafeQueue.h:23-32 | Appends unless the queue has been released, in which case the caller keeps the image; conservation kept |
| Buffers.Session.IncreaseUseCount | mivifwk/mialgoengine/MiaImage.h:78-82 | One more holder of a held image |
| Buffers.Session.ReleaseBuffer | mivifwk/mialgoengine/MiaOfflineSession.cpp:1045-1103 | One holder less; the last one sends an internal image to the pool and any other to the application |
| Buffers.Session.Submit | mivifwk/mialgoengine/MiaOfflineSession.cpp:527-531 | An arriving source frame ends up in the queue of its port, in a new one if the port had none, or, if the queue has been released, is returned to the application at once |
| Buffers.Session.AcquireInternalOutput | mivifwk/mialgoengine/MiaOfflineSession.cpp:1007-1026 | The output queue gets the oldest idle image, or a new one when the pool is empty; conservation kept |
| Buffers.Session.AcquireSinkOutput | mivifwk/mialgoengine/MiaOfflineSession.cpp:989-1006 | The output queue gets a frame of the application; conservation kept |
| Buffers.Session.ShareWith | mivifwk/mialgoengine/MiaPipeline.cpp:369-372 | One more holder, in a child's queue |
| Buffers.Session.MoveToChildren | mivifwk/mialgoengine/MiaPipeline.cpp:360-381 | The image ends up once more in every child's queue and leaves the hand |
| Buffers.Session.Relieve | mivifwk/mialgoengine/MiaPipeline.cpp:383-391 | One image, or all of a using queue, passed to every child |
| Buffers.Session.ReleaseInputBuffers | mivifwk/mialgoengine/MiaPipeline.cpp:341-420 | All using queues are relieved (of one image each, or wholly), towards the children exactly when the node is in-place or virtual; conservation kept |
| Buffers.Session.Transfer | mivifwk/mialgoengine/MiaPipeline.cpp:615-632 | Moves the first image, or all, from one queue to the end of another, in order; other queues unchanged; conservation kept |
| Buffers.Session.ReleaseAll | mivifwk/mialgoengine/MiaPipeline.cpp:639-650 | Empties a queue of finished frames and gives each back; conservation kept |
| Buffers.Session.ReleaseUnusedBuffer | mivifwk/mialgoengine/MiaPipeline.cpp:687-731 | Closes the source queues and empties every queue; if no thread holds an image, every image is then home |
| PipelineRuns.AllHomeInTheEnd | mivifwk/mialgoengine/MiaPipeline.cpp:163-193 | Scheduler, image handling and clean-up in one machine, every thread at its own place in its program, one queue or count at a time, early closing of source queues included: in every interleaving, when the dispatcher has come to the end of its clean-up, no worker holds an image and every queue that the pipeline had is empty; if besides no frame is just being submitted, every frame of the application has been given back exactly once and every internal image is in the pool exactly once, if and only if no frame made a new source queue that the clean-up had already come past |
| PipelineRuns.LateFramesGoHome | mivifwk/mialgoengine/MiaPipeline.cpp:657-703 | Once cleaned up a pipeline stays so: whatever frames still arrive, whenever none is just being submitted all are home if and only if none of them came on a port that had no queue when the clean-up had come past it |
| PipelineRuns.LateStep | mivifwk/mialgoengine/MiaPipeline.cpp:657-666 | A step strands a frame exactly if it puts it into a new source queue at a port that the clean-up has come past; nothing brings a stranded frame back |
| PipelineRuns.CanContinue | mivifwk/mialgoengine/MiaPipeline.cpp:570-685 | A thread in the middle of something with an image can always go on, and gets nearer to the end of it: a worker comes to its word to the scheduler with empty hands |
| PipelineRuns.CleanupGoesOn | mivifwk/mialgoengine/MiaPipeline.cpp:687-731 | From the moment the dispatcher has finished until it has cleaned up, it always has a next step, whatever queues there are |
| PipelineRuns.StepInv | mivifwk/mialgoengine/MiaPipeline.cpp:163-193 | Every step of the dispatcher, a worker or the application keeps the invariant: what is held is what the threads are in the middle of, workers of nodes not in flight are between images, every queue that the clean-up has looked into is empty and, where frames could arrive, closed, and a queue that it has come past without is a new one that holds a frame |
| PipelineRuns.RunInv | mivifwk/mialgoengine/MiaPipeline.cpp:163-193 | The invariant on scheduler, images, threads and clean-up holds in every state of every run |
| Contraction.ReachabilityKept | mivifwk/mialgoengine/MiaPipelinePruner.cpp:551-647 | If joined instances have one input and one output link, kept instances reach each other after contraction exactly when they did before |
| Contraction.ContractionUnique | mivifwk/mialgoengine/MiaPipelinePruner.cpp:633-647 | The set of joins alone determines the contracted links and their order |
| Contraction.PartitionUnique | mivifwk/mialgoengine/MiaPipelinePruner.cpp:633-641 | There is one way to partition the links into maximal chains ordered by their least members |
| Contraction.ChainUnique | mivifwk/mialgoengine/MiaPipelinePruner.cpp:529-536 | Two maximal chains with a common link are equal |
| Contraction.NotOneChain | mivifwk/mialgoengine/MiaPipelinePruner.cpp:551-647 | On an acyclic graph two links with a common start, or a common end, are never on one chain |
| Contraction.ContractedEnds | mivifwk/mialgoengine/MiaPipelinePruner.cpp:551-647 | Each contracted link starts like one raw link, with its instance, port and format, and ends like one that the joins lead to from there; the starting ones are exactly the raw links that no join leads to, the ending ones exactly those that no join leads on from, and each is used once |
| NodePrune.PipelineNodePrune | mivifwk/mialgoengine/MiaPipelinePruner.cpp:518-648 | On every acyclic graph, whatever is requested: the result is the path contraction along the requested joins for some partition into chains if and only if no link is asked to join twice at one end. The contraction has one link per maximal joined path, with the source end of its head and the destination end of its tail, ordered by the least raw link of the path; its size is raw links minus joins |
| NodePrune.OrderIrrelevant | mivifwk/mialgoengine/MiaPipelinePruner.cpp:551-582 | Lists of disabled instances with the same members give the same links in the same order |
| NodePrune.NormalMatching | mivifwk/mialgoengine/MiaPipelinePruner.cpp:551-569 | Disabled instances without customized paths always ask for a matching |
| NodePrune.SharedPortLosesLink | mivifwk/mialgoengine/MiaPipelinePruner.cpp:593-630 | An input on which the method does not contract: one customized instance whose two through paths share the input port asks for the joins {(0,1),(0,2)}; forwarding leaves the one link from the source to the second output, and that is no contraction for any chains |
| NodePrune.GetRealLinkIndex | mivifwk/mialgoengine/MiaPipelinePruner.cpp:529-536 | The chase ends, at the root of the index |
| NodePrune.RootAfter | mivifwk/mialgoengine/MiaPipelinePruner.cpp:580-581 | Forwarding two roots to a new entry changes the root of exactly the indices that had one of them, to the new entry |
| NodePrune.IndexPorts | mivifwk/mialgoengine/MiaPipelinePruner.cpp:538-549 | Per instance and port, the first link at it, and nothing else |
| NodePrune.NormalJoin | mivifwk/mialgoengine/MiaPipelinePruner.cpp:553-567 | Finds the link at the lowest input port and the one at the lowest output port, exactly when both exist |
| NodePrune.BypassJoin | mivifwk/mialgoengine/MiaPipelinePruner.cpp:595-615 | Finds the first links at the two ports of a through path, exactly when both exist |
| NodePrune.JoinsAsked | mivifwk/mialgoengine/MiaPipelinePruner.cpp:551-630 | Which links are asked to join: the input link and the output link with the lowest ports of a disabled instance, and the first links at the two ports of a through path |
| NodePrune.Fuse | mivifwk/mialgoengine/MiaPipelinePruner.cpp:571-581 | Appends the link from the source end of one real link to the destination end of the other, and forwards both to it |
| NodePrune.JoinForest | mivifwk/mialgoengine/MiaPipelinePruner.cpp:566-581 | Joining two different chains keeps the correspondence between table and joins: every root stands for a maximal chain and carries its fused link |
| NodePrune.FuseForest | mivifwk/mialgoengine/MiaPipelinePruner.cpp:571-581 | One fusing step, for any joins on an acyclic graph: what is done becomes one join more; where the joins are a matching the roots correspond to the maximal chains |
| NodePrune.PruneDisabled | mivifwk/mialgoengine/MiaPipelinePruner.cpp:551-582 | After the loop over disabled instances exactly their joins are done, for any graph without cycles |
| NodePrune.PrunePaths | mivifwk/mialgoengine/MiaPipelinePruner.cpp:594-630 | After the loop over the through paths of an instance exactly their joins are done too, clashing ones included |
| NodePrune.CollectActive | mivifwk/mialgoengine/MiaPipelinePruner.cpp:633-647 | One link per root, in the order in which raw links first lead to it: the contraction if the joins are a matching, and otherwise not a contraction for any chains |
| NodePrune.NoContraction | mivifwk/mialgoengine/MiaPipelinePruner.cpp:633-647 | When two requested joins clash, the two links they are to be joined with share a root but lie on two chains of any partition, so what the roots give is no contraction |
| NodePrune.MeetRoots | mivifwk/mialgoengine/MiaPipelinePruner.cpp:633-641 | The roots of the raw links, each once, in the order in which the links lead to them |
| PortPrune.InputPruning | mivifwk/mialgoengine/MiaPipelinePruner.cpp:422-465 | A list of input ports goes through without erasing a missing element if and only if no link it names is implied by the others; it then deletes exactly the least set that contains the named links and is closed under "a node that lost all its outputs loses all its inputs" |
| PortPrune.OutputPruning | mivifwk/mialgoengine/MiaPipelinePruner.cpp:466-504 | A list of output ports goes through without erasing a missing element if and only if no link it names is implied by the others; it then deletes exactly the least set that contains the named links and is closed under "a node that lost all its inputs loses all its outputs" |
| PortPrune.OneRequest | mivifwk/mialgoengine/MiaPipelinePruner.cpp:422-465 | A single disabled port always goes through |
| PortPrune.TwoRequestsCollide | mivifwk/mialgoengine/MiaPipelinePruner.cpp:456-458 | Two ports on a two-link path for which the second cascade erases the end iterator of a list |
| PortPrune.PipelinePortPrune | mivifwk/mialgoengine/MiaPipelinePruner.cpp:401-516 | The method goes through exactly when serving the requests one by one on sets of deleted links does; then there is a strictly increasing sequence of indices, with exactly those of the links that no request deleted, and the result is the links at these indices |
| PortPrune.SurvivorsUnique | mivifwk/mialgoengine/MiaPipelinePruner.cpp:509-515 | What survives, and at which indices, is determined by the links and the set of deleted ones |
| PortPrune.InputMeans | mivifwk/mialgoengine/MiaPipelinePruner.cpp:422-505 | For input lists that go through, a link is deleted if and only if it is in every set of links that has the first link at each named port and, with all output links of a node, all links into that node |
| PortPrune.OutputMeans | mivifwk/mialgoengine/MiaPipelinePruner.cpp:422-505 | For output lists that go through, a link is deleted if and only if it is in every set of links that has the first link at each named port and, with all input links of a node, all links out of that node |
| PortPrune.ServeOne | mivifwk/mialgoengine/MiaPipelinePruner.cpp:422-504 | One request, of either direction: fails exactly when its cascade meets a link no longer listed, and otherwise lists and flags reflect exactly what it deleted |
| PortPrune.Cascade | mivifwk/mialgoengine/MiaPipelinePruner.cpp:447-465 | The work list ends; it finds every link still listed exactly when the cascade is disjoint from what was deleted before, and then takes exactly the cascade off the lists and flags, each link once |
| PortPrune.CascadeLeast | mivifwk/mialgoengine/MiaPipelinePruner.cpp:447-465 | A cascade, the intersection of all closed sets of remaining links that contain its starts, is one of them |
| PortPrune.CascadesAdd | mivifwk/mialgoengine/MiaPipelinePruner.cpp:447-465 | Cascading one start after another deletes what cascading them together does |
| PortPrune.OneMoreStart | mivifwk/mialgoengine/MiaPipelinePruner.cpp:422-465 | One more request succeeds exactly when no named link is then implied by the others |
| PortPrune.BuildLists | mivifwk/mialgoengine/MiaPipelinePruner.cpp:410-420 | Per instance the indices of its input links and of its output links, in order |
| PortPrune.FindPort | mivifwk/mialgoengine/MiaPipelinePruner.cpp:434-441 | The first listed link at the port, or -1 |
| PortPrune.EraseFound | mivifwk/mialgoengine/MiaPipelinePruner.cpp:456-458 | The list without the element, which was found exactly if it was there |
| PortPrune.KeepFlagged | mivifwk/mialgoengine/MiaPipelinePruner.cpp:509-515 | The result is the links at a strictly increasing sequence of indices, which are exactly those whose flag still stands |
| PortMixed.MixedPruning | mivifwk/mialgoengine/MiaPipelinePruner.cpp:422-505 | Lists that mix input and output ports, with one link per port: if no link named by an input port is implied by the other input ports, and none named by an output port by the other output ports, the whole list goes through in any order; it deletes every named link and no more than the cascades of both directions together |
| PortMixed.OrderCounts | mivifwk/mialgoengine/MiaPipelinePruner.cpp:434-458 | Two input ports whose cascades collide, and an output port upstream: with the output port last the list erases a missing element, with it first the list goes through. So for mixed lists no condition on the named links alone can be exact |
| Rebuild.RebuildLinks | mivifwk/mialgoengine/MiaPipelinePruner.cpp:324-341 | Port pruning, node pruning and typing in sequence, for every acyclic pipeline: succeeds exactly when port pruning does; the links kept by it are those at the ascending indices no request deleted; the result, but for types, is the path contraction of the kept links if and only if no kept link is asked to join twice at one end; every link is typed by the names of its ends |
| Rebuild.KeptRanked | mivifwk/mialgoengine/MiaPipelinePruner.cpp:326-327 | Port pruning leaves an acyclic graph acyclic |
| Rebuild.SetTypes | mivifwk/mialgoengine/MiaPipelinePruner.cpp:329-338 | Each link gets the type that its end names say, a source name taking precedence; nothing else changes |
| ThreadPool.AlwaysStaffed | mivifwk/mialgoengine/ThreadPool.cpp:26-128 | Up to any state of any run, no more tasks were ever queued than threads were idle, or 32 were active, if and only if no step so far was a return that finds 32 threads active, more tasks than idle threads, and the redundancy test true |
| ThreadPool.StaffedUnlessSpoilt | mivifwk/mialgoengine/ThreadPool.cpp:47-128 | For any number of tasks, a step from a staffed state leads to a staffed one if and only if it is not a return with 32 active threads, more tasks than idle threads, and the redundancy test true |
| ThreadPool.StaffedIfShort | mivifwk/mialgoengine/ThreadPool.cpp:70-88 | With fewer than 2^31 tasks queued all along, no more tasks are queued than threads are idle, or 32 are active |
| ThreadPool.Hiring | mivifwk/mialgoengine/ThreadPool.cpp:93-128 | Unless the pool has stopped: the task is queued last, all retired workers are gone and no other, and one idle worker is new exactly if fewer than 32 are active and more tasks than idle workers are there |
| ThreadPool.Dismissal | mivifwk/mialgoengine/ThreadPool.cpp:70-88 | A returning worker retires exactly if more are idle than initially and than twice the number of queued tasks; it is then to be removed, and counts as neither active nor idle |
| ThreadPool.AlwaysCounted | mivifwk/mialgoengine/ThreadPool.cpp:26-128 | In every state of every run the initial number <= active <= 32, idle is the number of waiting threads, and active is idle plus running |
| ThreadPool.AllRunOnce | mivifwk/mialgoengine/ThreadPool.cpp:47-141 | In every run, of any length and with any number of tasks, tasks are taken in the order accepted and none is run twice; when all workers have exited after stop, every accepted task has been run exactly once if and only if the queue is empty, and it is if the pool was made with at least one thread or no step was spoilt |
| ThreadPool.StepInv | mivifwk/mialgoengine/ThreadPool.cpp:47-128 | Every locked section keeps the invariant on counters, threads and tasks, however many tasks are queued |
| ThreadPool.RunInv | mivifwk/mialgoengine/ThreadPool.cpp:26-128 | The invariant on counters, threads and tasks holds in every state of every run |
| ThreadPool.WrapRetiresTooEarly | mivifwk/mialgoengine/ThreadPool.cpp:80-81 | A run reaches a state with 2^31 queued tasks, all threads active, in which the 32-bit product is zero and a returning worker retires although work waits: staffing holds before that step and not after it |
| ThreadPool.WrapStrandsTasks | mivifwk/mialgoengine/ThreadPool.cpp:70-141 | A run of a pool made with no thread reaches a state where it is stopped, all workers have left, and 2^31 accepted tasks have not been run |
| ThreadPool.Threads.constructor | mivifwk/mialgoengine/ThreadPool.cpp:26-36 | Starts min(threads, 32) idle workers |
| ThreadPool.Threads.Wake | mivifwk/mialgoengine/ThreadPool.cpp:56-66 | A woken worker leaves if stopped with nothing queued, and otherwise takes the oldest one |
| ThreadPool.Threads.RunTaken | mivifwk/mialgoengine/ThreadPool.cpp:68 | The task taken is run outside the lock: it joins the executed ones, once, and the worker is about to come back |
| ThreadPool.Threads.ComeBack | mivifwk/mialgoengine/ThreadPool.cpp:70-88 | A worker coming back retires exactly under the redundancy test, counters adjusted |
| ThreadPool.Threads.Submit | mivifwk/mialgoengine/ThreadPool.cpp:92-129 | Refuses with -1 once stopped; otherwise removes retired workers, queues, and starts a worker exactly when too few are idle and fewer than 32 are active |
| ThreadPool.Threads.Shutdown | mivifwk/mialgoengine/ThreadPool.cpp:131-136 | Sets stop and nothing else |
| NodeWorkers.OneWorker | mivifwk/mialgoengine/MiaNode.cpp:1070-1198 | For OtherNode and SigframeNode: never more than one worker scheduled or in the loop; no current pipeline exactly when there is no thread, and then nothing is queued; a working loop always has a pipeline, as does the log line after queueing; each request is started at most once and, when no thread is left, every one has been served |
| NodeWorkers.PriorityOrder | mivifwk/mialgoengine/MiaNode.cpp:1262-1294 | Of two waiting requests the one with lower priority is never started first |
| NodeWorkers.SerialStepInv | mivifwk/mialgoengine/MiaNode.cpp:938-960 | For OtherNode and SigframeNode: queueing, starting, counting a frame, finishing (well or with an error) and leaving keep the invariant on thread, current pipeline and queue |
| NodeWorkers.SerialRunInv | mivifwk/mialgoengine/MiaNode.cpp:1262-1368 | For OtherNode and SigframeNode that invariant holds in every state of every run |
| NodeWorkers.NeverEmptyHanded | mivifwk/mialgoengine/MiaNode.cpp:1000-1026 | For ConcurrencyNode and VirtualNode: closures that have not popped yet are as many as queued requests, so the empty-queue branch is never taken; each request is served at most once, and all are when no closure is left to pop |
| NodeWorkers.ParallelStepInv | mivifwk/mialgoengine/MiaNode.cpp:1000-1026 | For ConcurrencyNode and VirtualNode: queueing, popping and finishing keep the equality of closures on the way and queued requests |
| NodeWorkers.ParallelRunInv | mivifwk/mialgoengine/MiaNode.cpp:1370-1391 | For ConcurrencyNode and VirtualNode that equality holds in every state of every run |
| NodeWorkers.SerialNode.EnqueueTask | mivifwk/mialgoengine/MiaNode.cpp:1262-1294 | Queues the request and, if none is current, makes it current, scheduling a worker if there is no thread; the pipeline that is logged is not null |
| NodeWorkers.SerialNode.FinishRequest | mivifwk/mialgoengine/MiaNode.cpp:1349-1365 | Goes on with the greatest waiting request, or gives up the thread; says which |
| NodeWorkers.SerialNode.CurrentPipeline | mivifwk/mialgoengine/MiaNode.cpp:1304 | The pipeline that a working loop reads is the current one and is not null |
| NodeWorkers.SerialNode.CountFrame | mivifwk/mialgoengine/MiaNode.cpp:1127 | One more frame of the current request; nothing else changes |
| NodeWorkers.ParallelNode.EnqueueTask | mivifwk/mialgoengine/MiaNode.cpp:1000-1010 | Queues the request and schedules one closure |
| NodeWorkers.ParallelNode.FetchRequest | mivifwk/mialgoengine/MiaNode.cpp:1017-1026 | A scheduled closure gets the greatest waiting request, never none |
| BufferPool.PoolSafe | mivifwk/mialgoengine/MiaOfflineSession.cpp:36-92 | In every state of every interleaving from an empty pool on, allocations failing or not: at most 20 buffers live; the memory total is the sum of their sizes; whenever no allocation or release is under way the count is free plus in flight; an image in use keeps its own live buffer and is neither in the queue nor being reclaimed; an idle image not on its way is in the queue |
| BufferPool.StepInv | mivifwk/mialgoengine/MiaBufferManager.cpp:169-284 | Every locked section (measure, list, count, new image, fetch, use, share, let go, push back, check size, pop to reclaim, unlist, free, uncount) keeps the invariant |
| BufferPool.RunInv | mivifwk/mialgoengine/MiaOfflineSession.cpp:36-208 | The invariant on counts, sizes and images holds in every state of every run that starts with an empty pool |
| BufferPool.Trimmed | mivifwk/mialgoengine/MiaOfflineSession.cpp:80-92 | One round of trimming with no other thread about: the head image leaves with its buffer, counts and memory following |
| BufferPool.BufferQueueWrapper.IncreaseImageQueue | mivifwk/mialgoengine/MiaOfflineSession.cpp:180-208 | One new buffer and one new idle image at the end of the queue, exactly when fewer than 20 buffers live and memory is left; otherwise nothing changes |
| BufferPool.BufferQueueWrapper.DequeueBuffer | mivifwk/mialgoengine/MiaOfflineSession.cpp:36-49 | The oldest idle image, else a new one, else none; its use count is then one |
| BufferPool.BufferQueueWrapper.EnqueueBuffer | mivifwk/mialgoengine/MiaOfflineSession.cpp:51-57 | One user less; queued exactly when that was the last |
| BufferPool.BufferQueueWrapper.ClearOutThresholdBuffer | mivifwk/mialgoengine/MiaOfflineSession.cpp:80-92 | At or below the threshold nothing changes; above it the oldest idle images are destroyed until at most one is left; images in use keep count and buffer |
| PlaneLayout.RowsInside | mivifwk/mialgoengine/MiaImage.cpp:279-297 | For both paddings, every luma row ends within the luma plane and every chroma row, for odd widths too, within the chroma plane behind it, and both planes lie within the buffer that was allocated |
| PlaneLayout.LeastPadded | mivifwk/mialgoengine/MiaUtil.cpp:13-57 | Every stride, scanline and length is the least multiple of its padding that is large enough |
| PlaneLayout.PlacedPerChip | mivifwk/mialgoengine/MiaImage.cpp:288-297 | On QCOM heights and planes are padded to 64; on MTK neither |
| PlaneLayout.WidePlanesExactly | mivifwk/mialgoengine/MiaImage.cpp:280-297 | For implementation-defined formats, placed with 512-byte padding in a buffer allocated with 64-byte padding, both planes lie within the buffer if and only if the image is empty, or its padded width is a multiple of 512 and its padded height one of 1024 |
| PlaneLayout.WideRowsExactly | mivifwk/mialgoengine/MiaImage.cpp:336-355 | For such an image every row lies within the buffer if and only if there is no chroma row or the last one ends in the buffer |
| PlaneLayout.WideRowsLeave | mivifwk/mialgoengine/MiaBufferManager.cpp:219-240 | For such an image of 640 by 480 the last chroma row ends behind the buffer |
| PlaneLayout.PlacedWithin | mivifwk/mialgoengine/MiaImage.cpp:336-355 | The placement has the stride of the allocation and needs no more of anything |
| PlaneLayout.CalcOffset | mivifwk/mialgoengine/MiaUtil.cpp:13-57 | The 32-bit computation gives the layout of unbounded arithmetic for images that fit |
| PlaneLayout.Machine | mivifwk/mialgoengine/MiaUtil.cpp:13-57 | No intermediate value leaves the 32-bit range when the padded image fits it |
| ReturnWindow.PendingListed | mivifwk/mizone/MiAlgoCamMode.cpp:1116-1121 | Every requested frame whose buffer is outstanding is in the window, flagged as such, and the first entry of the window is outstanding |
| ReturnWindow.OpenMore | mivifwk/mizone/MiAlgoCamMode.cpp:509-518 | A later frame extends the window at its end |
| ReturnWindow.OpenInside | mivifwk/mizone/MiAlgoCamMode.cpp:1231 | A buffer returned out of order leaves the extent of the window unchanged |
| ReturnWindow.OpenAtHead | mivifwk/mizone/MiAlgoCamMode.cpp:1232-1241 | A buffer returned for the oldest frame advances the window to the next outstanding one |
| ReturnWindow.StreamWindow.Register | mivifwk/mizone/MiAlgoCamMode.cpp:509-518 | The window is the flagged sequence of frames from the oldest outstanding one on, with the new frame |
| ReturnWindow.StreamWindow.ForwardResult | mivifwk/mizone/MiAlgoCamMode.cpp:1228-1242 | After a buffer has come back, in whatever order, the window is again the flagged sequence of frames from the oldest outstanding one on |
| ReturnWindow.CollectOfflineRequests | mivifwk/mizone/MiAlgoCamMode.cpp:1115-1140 | A stream is listed under a frame exactly when its window holds the frame |
| ReturnWindow.OfflinePending | mivifwk/mizone/MiAlgoCamMode.cpp:1115-1140 | From the windows of all streams: under a frame exactly the streams are listed whose window holds it; so every requested frame whose buffer is outstanding is listed, in whatever order others have come back |
| SnapshotController.CaughtUp | mivifwk/mizone/AppSnapshotController.cpp:85-130 | When no command waits, in whatever batches they were taken, the status is what the records want and what the application was last told; notifications alternate, starting with mute |
| SnapshotController.MergedIsLast | mivifwk/mizone/AppSnapshotController.cpp:107-117 | Merging a batch comes down to its last command |
| SnapshotController.MergedInParts | mivifwk/mizone/AppSnapshotController.cpp:107-117 | Merging in two batches is merging in one |
| SnapshotController.StepInv | mivifwk/mizone/AppSnapshotController.cpp:40-117 | Updates, deletions, grabbing and processing keep the invariant |
| SnapshotController.RunInv | mivifwk/mizone/AppSnapshotController.cpp:40-117 | The invariant on records, waiting commands and status holds in every state of every run |
| SnapshotController.AppSnapshotController.OnRecordUpdate | mivifwk/mizone/AppSnapshotController.cpp:52-58 | Sets the record and queues the command that the records now call for |
| SnapshotController.AppSnapshotController.OnRecordDelete | mivifwk/mizone/AppSnapshotController.cpp:40-50 | Removes the record, if there is one, and then queues the command |
| SnapshotController.AppSnapshotController.OnRecordChanged | mivifwk/mizone/AppSnapshotController.cpp:60-83 | The early-exit loop finds whether all records allow the next snapshot |
| SnapshotController.AppSnapshotController.GrabCommands | mivifwk/mizone/AppSnapshotController.cpp:99-100 | All waiting commands, in order |
| SnapshotController.AppSnapshotController.ProcessCommands | mivifwk/mizone/AppSnapshotController.cpp:107-122 | The merged status; notifies exactly when it differs |
| XmlRoundTrip.RoundTrip | factory_cmd/factory_tool/tinyxml2.cpp:2285-2394 | For every canonical document, with or without a byte order mark, parsing the compact print succeeds and gives back the mark and the same tree of names, ordered attributes, text, CDATA, comments, declarations and unknowns |
| XmlRoundTrip.NodeRead | factory_cmd/factory_tool/tinyxml2.cpp:988-1100 | A printed node is read back, wherever in a buffer it stands |
| XmlRoundTrip.ListRead | factory_cmd/factory_tool/tinyxml2.cpp:988-1100 | A printed list of nodes, of any depth, is read back wherever in a buffer it stands |
| XmlRoundTrip.ElementRead | factory_cmd/factory_tool/tinyxml2.cpp:1898-1923 | A printed element, sealed or with children and end tag, is read back |
| XmlRoundTrip.AttributesRead | factory_cmd/factory_tool/tinyxml2.cpp:1815-1871 | All printed attributes of a tag are read back, up to its end |
| XmlRoundTrip.LeafRead | factory_cmd/factory_tool/tinyxml2.cpp:1212-1317 | Printed comments, CDATA, declarations and unknowns are read back |
| XmlRoundTrip.TextRead | factory_cmd/factory_tool/tinyxml2.cpp:1147-1171 | Printed text in front of a tag is read back, its white space included |
| XmlRoundTrip.FindBehind | factory_cmd/factory_tool/tinyxml2.cpp:193-215 | A terminator is found right behind a value that is free of it: no overlap with the end of the value is taken for one |
| XmlRoundTrip.HeaderIdentified | factory_cmd/factory_tool/tinyxml2.cpp:656-723 | A printed header is identified as its own kind, despite shared prefixes |
| XmlText.DecodeEscape | factory_cmd/factory_tool/tinyxml2.cpp:2494-2546 | Unescape undoes escape, for text without CR and NUL, in the restricted and in the full entity set |
| XmlText.EscapePlain | factory_cmd/factory_tool/tinyxml2.cpp:2494-2546 | Escaped text holds no CR, NUL or `<`, and no `"` in the full set: nothing ends the value early |
| XmlText.EscapedByName | factory_cmd/factory_tool/tinyxml2.cpp:2494-2535 | `&`, `<` and `>` are always written as entities, quotes only where text is not restricted, and every other byte as itself |
| XmlText.DecodePlain | factory_cmd/factory_tool/tinyxml2.cpp:284-306 | Without entities, text that has no CR is read as it stands |
| XmlText.UnknownReferenceIsLost | factory_cmd/factory_tool/tinyxml2.cpp:341-345 | A concrete string whose unknown reference comes out as something else: the branch advances the write position without copying |
| XmlTokens.TokensRead | factory_cmd/factory_tool/tinyxml2.cpp:284-350 | Character data written as any sequence of bytes, line ends and references, with no two line ends in a row that run into one, is read as what the sequence stands for: a line feed for each line end, the character for a named reference, the UTF-8 bytes for a numeric one |
| XmlTokens.LinesRead | factory_cmd/factory_tool/tinyxml2.cpp:284-303 | Lines joined by any one of CR LF, LF CR, CR or LF are read as the same lines joined by LF |
| XmlTokens.LinesNormalised | factory_cmd/factory_tool/tinyxml2.cpp:284-303 | Any text without references, however its line ends are mixed, is read as its tokens from left to right mean, and without CR |
| XmlTokens.DigitsMean | factory_cmd/factory_tool/tinyxml2.cpp:456-540 | The value of a decimal or hexadecimal digit, in either case, and that nothing else is one |
| XmlMeaning.DecodesAsMeant | factory_cmd/factory_tool/tinyxml2.cpp:284-350 | For every string: the loop writes the intended value, in which an unknown reference stays as it stands, if and only if at every unknown `&` the byte at the write position is `&` |
| XmlMeaning.ReadAsMeant | factory_cmd/factory_tool/tinyxml2.cpp:267-365 | For every string without NUL: the caller, who reads up to the first NUL written, gets the intended string if and only if that condition holds up to where a NUL is written |
| XmlMeaning.EasilyMeant | factory_cmd/factory_tool/tinyxml2.cpp:284-350 | It is enough that no reference is unknown, or that nothing before an unknown one has been shortened |
| XmlText.NextPiece | factory_cmd/factory_tool/tinyxml2.cpp:284-350 | The read position moves on and the bytes written do not overtake it |
| XmlText.GetCharacterRef | factory_cmd/factory_tool/tinyxml2.cpp:456-549 | A reference is consumed within the string, and its bytes are no more than the bytes it replaces |
| XmlText.DecimalReference | factory_cmd/factory_tool/tinyxml2.cpp:505-545 | A decimal reference whose value fits 32 bits stands for the UTF-8 bytes of the positional value of its digits |
| XmlText.HexReference | factory_cmd/factory_tool/tinyxml2.cpp:471-503 | A hexadecimal reference whose value fits 32 bits stands for the UTF-8 bytes of the positional value of its digits |
| XmlText.DigitsWrap | factory_cmd/factory_tool/tinyxml2.cpp:483-500 | In general the backward sum differs from the positional value by a multiple of 2^32 and does not exceed it |
| Utf8.Invertible | factory_cmd/factory_tool/tinyxml2.cpp:403-453 | For every input below 0x200000 decoding as in section 3 of RFC 3629 gives the input back |
| Utf8.WellFormedIffScalar | factory_cmd/factory_tool/tinyxml2.cpp:403-453 | The bytes are well-formed UTF-8 (section 4 of RFC 3629) exactly for scalar values |
| Utf8.EveryWellFormed | factory_cmd/factory_tool/tinyxml2.cpp:403-453 | Every well-formed sequence is the encoding of its scalar value, so the encoder uses the shortest form |
| Utf8.ConvertUTF32ToUTF8 | factory_cmd/factory_tool/tinyxml2.cpp:403-453 | The loop that fills the output backwards computes the encoding |
| Utf8.Encode | factory_cmd/factory_tool/tinyxml2.cpp:403-453 | Bytes; at most four; none exactly for inputs from 0x200000 on |
| Utf8.ContinuationIsMask | factory_cmd/factory_tool/tinyxml2.cpp:430-444 | OR with 0x80 and then AND with 0xBF, computed bit by bit on integers of any size, is the continuation byte of the encoding by division and remainder |
| Utf8.FirstIsMask | factory_cmd/factory_tool/tinyxml2.cpp:446-449 | OR with the mark, computed bit by bit, is the first byte of the encoding, for what is left of the input at each length |
| XmlParse.XMLDocument.Parse | factory_cmd/factory_tool/tinyxml2.cpp:2285-2394 | The document ends up with the error, or with the byte order mark and nodes, that the grammar function gives for the text before its first NUL |
| XmlGrammar.DocumentExactly | factory_cmd/factory_tool/tinyxml2.cpp:2285-2394 | For every text, mark and list of nodes: parsing succeeds with them if and only if the text is what a grammar over the bytes describes with exactly these ranges: white space, names, attributes with different names, matching end tags, delimited leaves up to their first terminator, text up to the next tag, declarations first, at most 100 levels, and nothing behind but white space or an end tag |
| XmlGrammar.AttributeExactly | factory_cmd/factory_tool/tinyxml2.cpp:1356-1381 | An attribute is accepted, with exactly its ranges, if and only if it is a name, white space, an equals sign, white space, and a value between two equal quotes, double or single, that holds none of them |
| XmlGrammar.TagSound | factory_cmd/factory_tool/tinyxml2.cpp:1815-1871 | Whatever the attribute loop accepts is attributes with different names, white space around them, and the end of the tag |
| XmlGrammar.TagComplete | factory_cmd/factory_tool/tinyxml2.cpp:1815-1871 | Every such tag is accepted, with exactly these attributes in order |
| XmlGrammar.NodeComplete | factory_cmd/factory_tool/tinyxml2.cpp:988-1100 | What the grammar calls a node is parsed as that node, wherever it stands |
| XmlGrammar.NextSound | factory_cmd/factory_tool/tinyxml2.cpp:988-1100 | What is parsed as a node is one by the grammar, and what ends a list is an end tag or the end of the input |
| XmlGrammar.TagRefused | factory_cmd/factory_tool/tinyxml2.cpp:1815-1871 | When the attribute loop fails, what it has read are different attributes, and behind them stands a name that starts no attribute with a new name, which is reported as a wrong attribute, or something else that is not the end of the tag, which is reported as a wrong element |
| XmlGrammar.LeafRefused | factory_cmd/factory_tool/tinyxml2.cpp:1147-1317 | The error that a leaf without its terminator, or a declaration out of place, is refused with |
| XmlGrammar.ElementRefused | factory_cmd/factory_tool/tinyxml2.cpp:1036-1096 | The error that an element with no end tag or one of another name, with an error inside, or nested too deeply, is refused with |
| XmlParse.XMLDocument.NodesDeep | factory_cmd/factory_tool/tinyxml2.cpp:988-1100 | The loop over a list refines the recursive grammar: nodes, end tag, null result and error state; the depth tracker is restored and stops at 100 |
| XmlParse.XMLDocument.NextDeep | factory_cmd/factory_tool/tinyxml2.cpp:1011-1097 | One turn of the list loop refines the grammar step: identify, parse, check location and end tag |
| XmlParse.XMLDocument.ElementDeep | factory_cmd/factory_tool/tinyxml2.cpp:1898-1923 | The code for an element or an end tag refines the grammar; its null result is either an error already set or one that the caller reports |
| XmlParse.XMLDocument.AttributesDeep | factory_cmd/factory_tool/tinyxml2.cpp:1815-1871 | The attribute loop of a tag refines the grammar: the same attributes in order, the same error, among them that of a duplicate name |
| XmlParse.XMLDocument.AttributeDeep | factory_cmd/factory_tool/tinyxml2.cpp:1356-1381 | The parser's code for one attribute refines the grammar: same name and value ranges, same error |
| XmlParse.XMLDocument.LeafDeep | factory_cmd/factory_tool/tinyxml2.cpp:1147-1317 | The code for text, comment, declaration, unknown and CDATA refines the grammar: same ranges, same error |
| XmlParse.XMLDocument.ParseText | factory_cmd/factory_tool/tinyxml2.cpp:193-215 | The first occurrence of the terminator |
| XmlParse.NextNode | factory_cmd/factory_tool/tinyxml2.cpp:988-1100 | A node that was parsed has consumed at least a byte and stays within the buffer, so parsing terminates |
| XmlParse.ParseElement | factory_cmd/factory_tool/tinyxml2.cpp:1898-1923 | An element that was parsed has consumed at least a byte and stays within the buffer; only an open tag has an end tag |
| XmlPrint.XMLPrinter.PrintDocument | factory_cmd/factory_tool/tinyxml2.cpp:2778-2785 | The buffer holds the compact form of the document |
| XmlPrint.NodeLength | factory_cmd/factory_tool/tinyxml2.cpp:2561-2775 | The length of a printed node of every kind |
| XmlPrint.AttributesLength | factory_cmd/factory_tool/tinyxml2.cpp:2582-2590 | The length of printed attributes |
| XmlPrint.LeavesPrinted | factory_cmd/factory_tool/tinyxml2.cpp:2671-2775 | What a leaf of every kind is printed as |
| XmlPrint.ElementsPrinted | factory_cmd/factory_tool/tinyxml2.cpp:2561-2658 | What an attribute, a sealed and an open element are printed as |
| XmlPrint.XMLPrinter.Accept | factory_cmd/factory_tool/tinyxml2.cpp:1966-1977 | Visiting a node appends its compact form, after closing a pending start tag; stack and depth are restored |
| XmlPrint.XMLPrinter.AcceptElement | factory_cmd/factory_tool/tinyxml2.cpp:1966-1977 | Visiting an element appends its compact form, sealed exactly when it has no children; stack and depth are restored |
| XmlPrint.XMLPrinter.AcceptAll | factory_cmd/factory_tool/tinyxml2.cpp:1970-1974 | Visiting the children behind a pending start tag closes it and appends their compact forms; it stays pending exactly when there are none |
| XmlPrint.XMLPrinter.PrintString | factory_cmd/factory_tool/tinyxml2.cpp:2494-2546 | Writing runs and entities is escaping byte by byte |
| XmlPrint.XMLPrinter.OpenElement | factory_cmd/factory_tool/tinyxml2.cpp:2561-2579 | A start tag left open, name stacked |
| XmlPrint.XMLPrinter.PushAttribute | factory_cmd/factory_tool/tinyxml2.cpp:2582-2590 | An attribute, value escaped with the full set |
| XmlPrint.XMLPrinter.CloseElement | factory_cmd/factory_tool/tinyxml2.cpp:2633-2658 | Seals a pending tag, or writes the end tag of the innermost open element |
| XmlPrint.XMLPrinter.PushText | factory_cmd/factory_tool/tinyxml2.cpp:2671-2683 | Text escaped with the restricted set, or CDATA as it is |
| XmlPrint.XMLPrinter.PushDelimited | factory_cmd/factory_tool/tinyxml2.cpp:2733-2775 | Comment, declaration or unknown |
| XmlPrint.XMLPrinter.VisitEnter | factory_cmd/factory_tool/tinyxml2.cpp:2788-2801 | Start tag with all attributes, in order |
| XmlStrPairs.LazyReads | factory_cmd/factory_tool/tinyxml2.cpp:267-365 | After any successful parse, reading any selection of the document's strings in any order, each once, leaves each read string with the value it would have if read alone from the parsed buffer |
| XmlLazy.ReadSelection | factory_cmd/factory_tool/tinyxml2.cpp:267-365 | Any selection of the strings of a parsed document, in any order and with repetitions, each read by the in-place loop on first use and from the buffer afterwards: every value returned is the unescaped value of the bytes that were parsed |
| XmlLazy.LazyStrings.GetStr | factory_cmd/factory_tool/tinyxml2.cpp:267-365 | A read, the first as well as a repeated one, returns the unescaped value of the bytes as parsed, whatever was read before, and leaves all other strings fit to be read |
| XmlStrPairs.DocumentLaid | factory_cmd/factory_tool/tinyxml2.cpp:193-235 | The closed byte ranges of all strings of a parsed document are pairwise disjoint and lie in the buffer |
| XmlStrPairs.ReadInAnyOrder | factory_cmd/factory_tool/tinyxml2.cpp:267-365 | For disjoint closed ranges, the value read does not depend on which reads went before or come after |
| XmlStrPairs.FlushedElsewhere | factory_cmd/factory_tool/tinyxml2.cpp:267-365 | A read changes nothing outside the closed range of its string |
| XmlStrPairs.ReadsValue | factory_cmd/factory_tool/tinyxml2.cpp:267-365 | What is read is the decoded value of the range |
| XmlStrPairs.GetStr | factory_cmd/factory_tool/tinyxml2.cpp:267-365 | The in-place loop over the shared buffer turns it into exactly what `ReadsValue` and `FlushedElsewhere` speak of: the unescaped value, ended by a NUL, at the front of the range, and every other string untouched; the write position never passes the read position |
| XmlStrPairs.Unescape | factory_cmd/factory_tool/tinyxml2.cpp:281-357 | The rewriting loop, on the buffer it overwrites, computes the unescaped bytes of the range as it was before, the write position never passing the read position |
| XmlStrPairs.PieceAt | factory_cmd/factory_tool/tinyxml2.cpp:284-350 | One turn, read from a buffer whose front has already been overwritten, sees what it would see in the original |
| XmlStrPairs.CharacterRefAt | factory_cmd/factory_tool/tinyxml2.cpp:456-549 | A character reference decoded from the partly overwritten buffer is the one in the original |
| XmlStrPairs.ListLaid | factory_cmd/factory_tool/tinyxml2.cpp:988-1100 | The strings of a parsed list of nodes, nested ones included, lie in order, apart, within the bytes it consumed |
| XmlDom.XMLNode.Unlink | factory_cmd/factory_tool/tinyxml2.cpp:804-825 | Acts as removal from the child sequence; the pointers of all others spell out what is left; the node is cut off |
| XmlDom.XMLNode.InsertEndChild | factory_cmd/factory_tool/tinyxml2.cpp:841-868 | Refuses a node of another document, changing nothing; otherwise acts as append, a node already linked here or elsewhere leaving its old list, which stays consistent |
| XmlDom.XMLNode.InsertFirstChild | factory_cmd/factory_tool/tinyxml2.cpp:871-899 | Refuses a node of another document, changing nothing; otherwise acts as prepend, a node already linked here or elsewhere leaving its old list, which stays consistent |
| XmlDom.XMLNode.InsertAfterChild | factory_cmd/factory_tool/tinyxml2.cpp:902-935 | Refuses as the other insertions do; otherwise acts as insertion after a child; a null pointer is followed exactly if the node to move was the last child right behind the target |
| XmlDom.InsertedBehind | factory_cmd/factory_tool/tinyxml2.cpp:902-935 | In the sequence that the children stand for, the new node stands right behind the other, and the order of the rest is as before |
| XmlDom.RemovedAround | factory_cmd/factory_tool/tinyxml2.cpp:804-825 | In that sequence, the rest keeps its order when one is unlinked |
| XmlDom.XMLNode.InsertChildPreamble | factory_cmd/factory_tool/tinyxml2.cpp:1117-1129 | The node leaves the list it is in, which stays consistent |
| XmlDom.XMLNode.NotInOther | factory_cmd/factory_tool/tinyxml2.cpp:804-825 | No node is in the lists of two consistent parents |
| MemPool.MemPoolT.Alloc | factory_cmd/factory_tool/tinyxml2.h:374-398 | Never hands out a live item; takes the head of the free list, adding a block exactly when it is empty |
| MemPool.MemPoolT.Free | factory_cmd/factory_tool/tinyxml2.h:400-411 | Ignores null; otherwise the item heads the free list and is no longer live |
| MemPool.MemPoolT.Accounted | factory_cmd/factory_tool/tinyxml2.h:374-411 | blocks * items per block = free + current allocations |
| MemPool.MemPoolT.NewBlock | factory_cmd/factory_tool/tinyxml2.h:375-386 | When no item is free: one block more, whose items, linked in order, are the free list; every invariant of the pool is kept |
| MemPool.MemPoolT.WriteItem | factory_cmd/factory_tool/tinyxml2.h:443-446 | Overwriting a live item, link and all, leaves the free list intact |
| MemPool.LinkItems | factory_cmd/factory_tool/tinyxml2.h:380-385 | The items of a block, linked in order and ended by null |
| MemPool.ChainUnique | factory_cmd/factory_tool/tinyxml2.h:449-451 | A root determines its free list, so the list has no cycle |
| MemPool.WriteElsewhere | factory_cmd/factory_tool/tinyxml2.h:443-446 | Writes to items off the list leave it as it is |

## Left out

Contracts that say less than the code's purpose:

- PipelinePortPrune: for a list that mixes input and output ports the exact condition for going through is that serving the requests one by one on sets of links does; a condition on the named links alone, exact for lists of one direction (`InputPruning`, `OutputPruning`), is for mixed lists a sufficient one, with one link per port (`MixedPruning`); none can be exact, as the order of the requests counts (`OrderCounts`). The graph must be acyclic, as the cascade needs.
- PipelineNodePrune: the graph must be acyclic; what the result is when no contraction, is said only for `SharedPortLosesLink`.
- RebuildLinks: stops before memcpy nodes are bridged in between virtual nodes and buffers, before `resetNodeMask`, and before `checkPipelineLink`; the cache of prune results is not used, its key does not determine the result.
- EveryFrameGoesHome: holds for runs in which no queue but the source queues is released, hence without a forced flush.
- AllHomeInTheEnd: the images are those of one pipeline. In what order a worker fetches and releases between plugin runs is left open, so every order the code has is among those of the model; the frames that `SchedulerFlow` counts are not tied to the images in the queues. That no frame is just being submitted is a condition that the application can meet.
- ExecutesExactlyFed: for runs that end, as all do (`RunsEnd`), without an error; a plugin that never returns is not one of the model.
- EarlyKeeps: a node that hands on outputs early has an output link, which the code does not check.
- StuckExactly: the application submits the frames it has announced, until it expedites; every dispatched node gets a thread and works for one pipeline; waking up for no reason, which only makes a thread look again, is no step. Any node may fail while it runs, as it does when its plugin fails or an image has an unexpected format. How many frames belong together is a number per node, which its images agree on; the last frames of a node reach the queue behind a link when that link is counted, though those of an in-place node are there a little earlier. Between two frames outputs are handed on as long as there are any; more than a child waits for are of no consequence.
- SleepsExactly: for runs that are not expedited, since an expedited node may succeed with fewer frames than its child waits for. A forced flush, which wakes sleeping nodes, is left out.
- Prepare: the order in which the map of instances is walked is a parameter.
- TryPop: waiting for a queue to fill is left out, an empty queue yields nothing.
- DequeueBuffer: returns no image where the code waits for one.
- AcquireInternalOutput: taking an image from the pool and counting it is one step here, as is uncounting and putting back; `BufferPool` has them apart.
- ReleaseUnusedBuffer: the method by itself, with no other thread about, ends with every image home if no thread holds one; frames arriving between its steps are in `PipelineRuns`. Which queues belong to a pipeline is a parameter.
- AcquireSinkOutput: the frame is a parameter; finding the submitted sink image by time stamp and port is left out.
- AllRunOnce: joining and starting operating-system threads is left out, a retired worker may be erased at once.
- PriorityOrder: priorities are fixed when a request is queued, and of equal priorities the pipeline decides, as for the pair that the code compares.
- PoolSafe: the buffers allocated when a wrapper is created count as that many rounds of growth; two wrappers for one format are not told apart; a buffer gets its memory and is measured in one step.
- IncreaseImageQueue: one image at a time, as the only caller asks for; a failed allocation leaves no trace.
- RowsInside: two-plane formats with the 64-byte padding; `WidePlanesExactly` and `WideRowsExactly` are for the 512-byte padding of implementation-defined formats. P010, RAW and Y16 are left out, and so are buffers from gralloc, which has a layout of its own.
- CalcOffset: for images whose padded sizes fit 31 bits.
- Register: frame numbers increase, as the window needs.
- ForwardResult: each buffer comes back once.
- CollectOfflineRequests: which streams are pending under which frame; not the counts of outstanding buffers.
- CaughtUp: without the mute watchdog and the exit of the worker thread.
- RoundTrip: compact mode, entities processed, white space preserved; pretty printing puts indentation into text.
- Canonical documents have no plain text at top level: it has to be followed by a tag, and white space in front of it is skipped there.
- DecodesAsMeant: what is meant by a character reference is what `GetCharacterRef` makes of it, wrapped multiplier included.
- ReadAsMeant: the strings that the parser hands over hold no NUL.
- DigitsWrap: the multiplier wraps at 32 bits, the 64-bit sum is taken not to overflow.
- LazyReads: each string is read once, as the flush flag has it, and any number of times in `XmlLazy`; reads that the parser itself makes of names are of ranges it has left behind, and are slices of the buffer in `XmlParse`.
- PrintString: what is printed is a C string; a NUL inside would end it.
- DocumentExactly: white space is preserved and entities processed. A refused text has an error by `TagRefused`, `LeafRefused` and `ElementRefused`, turn by turn; a tag without a name is refused with the general parsing error.
- Parse: results are values; that they are linked into the DOM with `InsertEndChild` is `XmlDom`. Line numbers and error texts are left out.
- InsertEndChild: takes for granted that the node is not an ancestor of its new parent; tracking of unlinked nodes is left out.
- Unlink: the children of one node and of the parent a node comes from are kept consistent; that a tree has no cycle is not stated.
- Alloc: items are numbered over all blocks; the count of untracked items is left out.

What the repository does and the model does not:

- A `char` below 256 stands for a byte.
- Plugins, metadata, configuration files, gralloc, ION, memory mapping, logging, timing, exif text and image dumps: a plugin run succeeds or fails, and whether a node is enabled is an input.
- The number and formats of output images (`mivifwk/mialgoengine/MiaPipeline.cpp:521-563`), the check of input formats, and `pluginReleaseUnneedBuffer`.
- `mCurrentProcessNodes`, `mSinkNumToReturn`, idle and busy pipelines of a session, and forced flush.
- Nodes missing from the table of node masks; a source link straight to a sink buffer, which bridging removes before a pipeline runs.
- The frame loop of VirtualNode and forced flush in the node workers.
- XML files, number formatting, white-space collapsing, unprocessed entities, queries, cloning and user data.
- All other programs of the repository (`checknv`, `debuggerd`, `mcd`, `misight`, `miupdate`, `perfctr`, `spkcal` and the like), which drive devices and services rather than compute.
