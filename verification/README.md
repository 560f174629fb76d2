# Verified model of the fleet simulator's core algorithms

This project models the repository's core algorithms in Dafny and proves what
they are for. `dafny verify dfyconfig.toml` checks all of it. Each module begins
with the source lines it follows.

| files | component |
|---|---|
| `RayCast`, `HeatZones` | heat zones behind a grid index: two queries that look in one cell answer for all zones |
| `Polyline` | the encoded-polyline printer, against an independent reader of the format |
| `Components`, `RoadGraph`, `Prune`, `PruneOrder`, `Validate` | connected components of a road network, pruning to the largest, and the topology report |
| `ClipSegment`, `ClipLine` | clipping a network to a box |
| `CircuitBreaker`, `Outbox`, `Publisher` | delivery to sinks: the circuit breaker, the retry buffer, and the publisher over both |
| `Delivery`, `DeliveryQueue`, `DeliveryAttempts`, `Flushing` | the same as a state machine: publishes, flushes and reconfiguration in any interleaving; conservation, the queue's bounds, order and attempts, the flush loop |
| `SinkHealth`, `DeliveryEffects` | when a sink is asked, by what became of its publishes; what each step counts, queues and sends |
| `RenderState`, `LastWriter`, `Snapshot`, `Recording`, `Replay` | what a log of events comes to, keyframed recordings of it, and seeking in them |
| `Eta`, `Movement` | driving along a route, and the ETA while driving |
| `EditDistance` | the typo hint |
| `Buckets` | the downsampled history read |
| `Realism`, `StoreForward` | store-and-forward per device: what is published, kept and lost, and when |
| `Framing` | line framing between recorder and replay |
| `Common` | what several of these use |

How the models are built:

- What the source updates in place is a class or a loop here, proved against a
  specification function or predicate; the main results are lemmas about those.
- Each stretch of asynchronous code between two awaits is one atomic step. A
  `Sink` in `Delivery` is one sink with everything pending on it; `Publisher` is
  the source's object over all sinks; each of its methods is proved to be one
  step of every `Sink` concerned, and the object to be, after any calls, what the
  runs of its sinks have left.
- Randomness, clocks, the network and stored rows are parameters and arbitrary.
- Coordinates, distances and speeds are exact reals; timestamps are integers of
  milliseconds, or reals where the source adds jitter.

Where the code does not do what one would expect of it, and what shows it or says
exactly when:

- A heat zone whose bounding box spans more than the cell cap stays in the list
  but is invisible to both queries, which are documented to answer for any zone
  (`OversizedZoneIsMissed`). With no such zone both answer for all zones
  (`IndexableZonesAreFound`, `IndexableZonesAreMeasured`), and for a zone that
  alone holds a point both are right if and only if it is within the cap
  (`FoundAloneIffIndexable`, `MeasuredAloneIffIndexable`).
- The polyline printer wraps at 32 bits. Coordinates on the globe stay in range;
  beyond it the text never reads back as the points it was made from
  (`PathRoundTrip`, `FarPointIsMisread`).
- A closed breaker may stand at its threshold: a partial result closes a trial
  but keeps the failure run (`PartialTrialLeavesRun`), and a lowered threshold is
  not held against it (`LoweredThresholdMeetsRun`). With thresholds of one or
  more, as configuration has them, these are the only two ways, from any state
  (`AtThresholdStep`) and over any run (`AtThresholdIffStands`).
- Two flushes of one sink that overlap can leave its queue out of order
  (`OverlappingRefusalsReorder`). The reconnect sweep runs one at a time, and
  under that condition order is proved (`QueueStaysInOrder`).
- Switching the outbox off while a flush runs makes a refused flush throw, and
  its batches vanish without being counted (`CutOffFlushVanishes`): if and only
  if the outbox is off when such an answer comes (`VanishesIff`).
- Lowering the number of attempts can leave a queued entry with none
  (`LoweredAttemptsStrand`). With one flush at a time this happens if and only if
  no flush runs, nothing is cut, and the oldest entry has had as many
  (`StrandsIff`, `AlwaysAttemptsLeftIff`). With flushes that overlap a refusal can
  do it later, if and only if it brings back such an entry behind another
  (`RefusalStrandsIff`, `OverlappingFlushesStrand`).
- With an entry bound below one, which configuration refuses, a batch would be
  evicted by its own arrival (`OwnBatchSurvives`).
- A vehicle event recorded other than by a snapshot puts a live recording out of
  step if and only if it moves a vehicle off its baseline
  (`VehicleEventKeepsTrackIff`), and a later keyframe is then wrong
  (`ForeignVehiclesSpoilFile`); in the source nobody records one. Every other
  event, and in raw mode any, keeps it in step (`StaysInStep`).
- A bucketed read reports itself truncated with nothing omitted if and only if
  exactly as many rows match as one scan may read, in at most `limit` buckets
  (`ReadBucketed`, `FullScanInOneBucket`).
- Pruning to a component of one node yields a network that validation fails
  (`PrunedReport`, `ShortLineFails`).
- Empty lines between breaks come through the framing; only an empty last
  fragment does not (`ToLines`).

## Model

| member | source | states |
|---|---|---|
| `HeatZones.HeatZoneManager.IsPositionInHeatZone` | apps/simulator/src/modules/HeatZoneManager.ts:406-411 | the one grid cell looked up answers exactly what a ray-cast over every indexable zone of the list would: some zone has an odd number of edges that meet the ray |
| `HeatZones.HeatZoneManager.GetIntensityAt` | apps/simulator/src/modules/HeatZoneManager.ts:426-437 | the maximum finite intensity among all indexable zones around the point; none exactly when no such zone has a finite one |
| `HeatZones.HeatZoneManager.AddZone` | apps/simulator/src/modules/HeatZoneManager.ts:181-197 | refused exactly when the list is full; otherwise the list grows by the zone, and the grid still indexes exactly the list |
| `HeatZones.HeatZoneManager.UpdateZone` | apps/simulator/src/modules/HeatZoneManager.ts:209-231 | only the first zone with the id changes, in the patched fields only; the grid invariant survives the zone changing shape in place |
| `HeatZones.HeatZoneManager.RemoveZone` | apps/simulator/src/modules/HeatZoneManager.ts:236-242 | only the first zone with the id leaves the list, and with it its grid entries |
| `HeatZones.HeatZoneManager.ClearZones` | apps/simulator/src/modules/HeatZoneManager.ts:247-250 | list and grid are emptied, with the invariant |
| `HeatZones.HeatZoneManager.AppendGenerated` | apps/simulator/src/modules/HeatZoneManager.ts:104-168 | of the generated zones exactly those that fit under the cap and the count are appended, in order, each indexed |
| `HeatZones.HeatZoneManager.IndexZone` | apps/simulator/src/modules/HeatZoneManager.ts:496-505 | every cell the zone occupies gains the zone at its end; no other cell changes |
| `HeatZones.HeatZoneManager.DeindexZone` | apps/simulator/src/modules/HeatZoneManager.ts:511-519 | every cell the zone occupies loses it, and no cell stays behind empty |
| `HeatZones.ZoneCells` | apps/simulator/src/modules/HeatZoneManager.ts:465-491 | the callback sees exactly the cells the bounding box overlaps, each once, as many as were counted against the cap; none for an empty or oversized polygon |
| `HeatZones.OverlapsIffShares` | apps/simulator/src/modules/HeatZoneManager.ts:465-491 | a cell overlaps a box if and only if some point of the box lies in the cell |
| `HeatZones.AddingKeepsIndex` | apps/simulator/src/modules/HeatZoneManager.ts:494-505 | adding a zone to its cells keeps the grid invariant: each indexable zone once in exactly its cells, no empty cells |
| `HeatZones.DroppingKeepsIndex` | apps/simulator/src/modules/HeatZoneManager.ts:507-519 | dropping a zone from its cells keeps the grid invariant for the others |
| `HeatZones.InsideOccupiesCell` | apps/simulator/src/modules/HeatZoneManager.ts:525-540 | a point inside an indexable polygon looks in one of the polygon's cells |
| `HeatZones.IndexableZonesAreFound` | apps/simulator/src/modules/HeatZoneManager.ts:395-411 | when no zone exceeds the cell cap, "in any zone" means ray-cast inside any zone of the list |
| `HeatZones.FoundAloneIffIndexable` | apps/simulator/src/modules/HeatZoneManager.ts:395-411 | where one zone alone holds the point, the answer is right if and only if that zone is within the cell cap |
| `HeatZones.IndexableZonesAreMeasured` | apps/simulator/src/modules/HeatZoneManager.ts:413-437 | when no zone exceeds the cell cap, the intensity is the highest of all zones a ray-cast puts the point in |
| `HeatZones.MeasuredAloneIffIndexable` | apps/simulator/src/modules/HeatZoneManager.ts:413-437 | where one zone alone holds the point, its intensity is found if and only if that zone is within the cell cap |
| `HeatZones.OversizedZoneIsMissed` | apps/simulator/src/modules/HeatZoneManager.ts:474-484 | a concrete zone above the cell cap that contains the point: not found there, and its intensity not either |
| `RayCast.RaycastPIP` | apps/simulator/src/modules/HeatZoneManager.ts:542-553 | inside exactly when an odd number of edges meets the ray from the point towards growing longitude; the toggling loop decides it |
| `RayCast.CrossesIffMeets` | apps/simulator/src/modules/HeatZoneManager.ts:546-549 | the edge test holds if and only if one end is above and the other is not, and the point of the edge at that latitude, by its share of the way, lies to the right |
| `RayCast.InsideIffOddlyMet` | apps/simulator/src/modules/HeatZoneManager.ts:542-553 | the even-odd count is the parity of the edges so met |
| `RayCast.PolygonBBox` | apps/simulator/src/modules/HeatZoneManager.ts:443-460 | the one-pass loop computes the bounding box |
| `RayCast.BBoxIsTight` | apps/simulator/src/modules/HeatZoneManager.ts:439-460 | the box holds every vertex and each side touches one |
| `RayCast.InsideIsInBox` | apps/simulator/src/modules/HeatZoneManager.ts:542-553 | an odd number of crossings puts the point inside the bounding box |
| `RayCast.ClosingVertexIsIrrelevant` | apps/simulator/src/modules/HeatZoneManager.ts:542-567 | repeating the first vertex at the end, as generated rings do, changes no answer |
| `Polyline.PolygonToPath` | apps/simulator/src/modules/HeatZoneManager.ts:583-611 | the loop prints the path of the differences between consecutive rounded points |
| `Polyline.Encode` | apps/simulator/src/modules/HeatZoneManager.ts:586-598 | the inner loop prints the zigzag number in five-bit chunks, with JavaScript's 32-bit wrap-around |
| `Polyline.PathRoundTrip` | apps/simulator/src/modules/HeatZoneManager.ts:583-611 | an independent reader of the Encoded Polyline Algorithm Format gets the rounded points back if and only if every difference is between -2^30 and 2^30 - 1 |
| `Polyline.RoundedAreThePoints` | apps/simulator/src/modules/HeatZoneManager.ts:583-611 | those points are the polygon's own in order, latitude first, each within half a unit of the fifth decimal |
| `Polyline.FarPointIsMisread` | apps/simulator/src/modules/HeatZoneManager.ts:583-611 | a point out of range whose path reads back as something else |
| `Polyline.DeltaRoundTripIff` | apps/simulator/src/modules/HeatZoneManager.ts:586-598 | a single difference survives if and only if its doubling fits 32 bits |
| `Polyline.GlobeIsEncodable` | apps/simulator/src/modules/HeatZoneManager.ts:583-611 | no polygon with coordinates on the globe leaves that range |
| `RoadGraph.BuildAdjacency` | apps/network/src/commands/prune.ts:19-37 | the adjacency map and its key order are the graph of the lines: two nodes linked exactly when consecutive on some line |
| `RoadGraph.LineStaysTogether` | apps/network/src/commands/prune.ts:29-37 | a set no link leaves holds all of a line or none of it |
| `Components.LabelComponents` | apps/network/src/commands/prune.ts:39-61 | each node's label is the position, among the first nodes of components, of the one it hangs off; sizes are component sizes |
| `Components.LabelsAreComponents` | apps/network/src/commands/prune.ts:39-61 | two nodes get the same id if and only if a path joins them |
| `Components.Flood` | apps/network/src/commands/prune.ts:47-58 | the queue search visits exactly the nodes reachable from its start, and counts them |
| `Components.SizesSumToNodes` | apps/network/src/commands/prune.ts:42-61 | the sizes of all components sum to the node count |
| `Prune.FindLargest` | apps/network/src/commands/prune.ts:63-71 | the first of the maximal sizes |
| `PruneOrder.KeysAreByFirst` | apps/network/src/commands/prune.ts:19-37 | nodes are numbered in the order in which the file first names them |
| `PruneOrder.NoneIsLarger` | apps/network/src/commands/prune.ts:63-71 | no component is larger than the one kept |
| `PruneOrder.KeptIsFirst` | apps/network/src/commands/prune.ts:39-71 | of components as large, the kept one has a node that the file names before every node of another |
| `Prune.PruneNetwork` | apps/network/src/commands/prune.ts:14-106 | keeps non-lines and the lines inside the first largest component; removedNodes = all nodes - that component's |
| `Prune.KeptNodes` | apps/network/src/commands/prune.ts:75-99 | the nodes left are precisely the largest component |
| `Prune.KeptLinks` | apps/network/src/commands/prune.ts:75-91 | no link between kept nodes is lost |
| `Prune.PrunedIsConnected` | apps/network/src/commands/prune.ts:75-91 | from any kept node every kept node can be reached in the pruned network |
| `Prune.PrunedLargest` | apps/network/src/commands/prune.ts:63-91 | the largest component of the pruned network is the one it was pruned to |
| `Prune.PruneIsIdempotent` | apps/network/src/commands/prune.ts:14-106 | pruning again returns the same feature list |
| `Validate.AnalyzeNetwork` | apps/network/src/commands/validate.ts:19-78 | the command's report, with its sort, is the one that `ReportMeans` reads |
| `Validate.ReportMeans` | apps/network/src/commands/validate.ts:43-77 | of any network: nodes, lines, components and lone nodes are counted, the share is that of the largest component to a tenth; passed if and only if some component has 95 of 100 nodes and fewer than 5 of 100 are alone |
| `Validate.SortDescending` | apps/network/src/commands/validate.ts:62 | a descending permutation |
| `Validate.ReportCountsEveryNode` | apps/network/src/commands/validate.ts:43-66 | the component sizes behind a report sum to its node count |
| `Validate.PrunedReport` | apps/network/src/commands/validate.ts:62-77 | validating a pruned network: one component, 100 %; isolated nodes unless size is 1; passed if and only if the largest component has two nodes or more |
| `Validate.ShortLineFails` | apps/network/src/commands/validate.ts:62-77 | such a network, of one line with both ends at one key: pruned to one node, not passed |
| `ClipSegments.ClipSegment` | apps/network/src/commands/clip.ts:25-57 | the Liang-Barsky loop returns the ends of the part of the segment in the box, endpoints untouched, or null when there is none |
| `ClipSegments.NoClipMeansOutside` | apps/network/src/commands/clip.ts:21-49 | null if and only if no point of the segment is in the box |
| `ClipSegments.ClipIsIntersection` | apps/network/src/commands/clip.ts:21-57 | as a set of points the clip is exactly segment and box intersected |
| `ClipSegments.ClipEnds` | apps/network/src/commands/clip.ts:50-56 | both ends lie in the box, and an endpoint in the box is an end of the clip unchanged |
| `ClipLines.ClipLine` | apps/network/src/commands/clip.ts:62-87 | the piece-building loop yields the non-degenerate clips grouped exactly where the line stays inside between them |
| `ClipLines.PiecesAreTheClips` | apps/network/src/commands/clip.ts:61-87 | the steps of the pieces in order are the non-degenerate segment clips in order; every piece has two points or more, all in the box, no neighbours equal |
| `ClipLines.PiecesCover` | apps/network/src/commands/clip.ts:61-87 | as a set of points the pieces are the line's points in the box, less those of segments with a single point in it |
| `ClipLines.PieceIsStable` | apps/network/src/commands/clip.ts:61-87 | clipping a piece again gives that piece alone |
| `ClipLines.ClipGeometry` | apps/network/src/commands/clip.ts:89-117 | per geometry type, null exactly when nothing is left; a line in several pieces becomes one multi-line |
| `ClipLines.PointsAreKept` | apps/network/src/commands/clip.ts:92-97 | of several points exactly those between the four sides are kept, in order |
| `ClipLines.GeometryIsClipped` | apps/network/src/commands/clip.ts:89-117 | a point stays exactly within the four sides, several points and several lines unless nothing of them is left, one line piece by piece; nothing else stays |
| `ClipLines.PiecesOfMore` | apps/network/src/commands/clip.ts:110-112 | the pieces of several lines are those of each, in order |
| `ClipLines.ClipFeatures` | apps/network/src/commands/clip.ts:124-139 | the features of the collection, clipped in order, one line feature per piece of a line |
| `ClipLines.FeaturesAreClipped` | apps/network/src/commands/clip.ts:124-139 | each feature leaves, behind those before it, one feature per geometry left of it, with its own properties |
| `ClipLines.ClipIsIdempotent` | apps/network/src/commands/clip.ts:124-139 | clipping a clipped collection to the same box changes nothing |
| `CircuitBreakers.CircuitBreaker.AllowRequest` | apps/adapter/src/plugins/circuit-breaker.ts:96-112 | its answer and the whole new state, by state, probe and cooldown |
| `CircuitBreakers.CircuitBreaker.RecordSuccess` | apps/adapter/src/plugins/circuit-breaker.ts:115-119 | the whole new state: closed, run forgotten |
| `CircuitBreakers.CircuitBreaker.RecordPartial` | apps/adapter/src/plugins/circuit-breaker.ts:127-130 | the whole new state: a trial closes the breaker, and the failure run stays |
| `CircuitBreakers.CircuitBreaker.RecordFailure` | apps/adapter/src/plugins/circuit-breaker.ts:133-147 | the whole new state: counted, and opened by a failed trial or at the threshold |
| `CircuitBreakers.CircuitBreaker.CloseBreaker` | apps/adapter/src/plugins/circuit-breaker.ts:154-163 | the whole new state: a closed breaker keeps its run |
| `CircuitBreakers.CircuitBreaker.Reconfigure` | apps/adapter/src/plugins/circuit-breaker.ts:75-82 | the whole new state: disabling closes |
| `CircuitBreakers.HalfOpenIffProbing` | apps/adapter/src/plugins/circuit-breaker.ts:96-179 | over every call sequence: half-open if and only if a trial is in flight; a disabled breaker is closed |
| `CircuitBreakers.OneTrialPerPeriod` | apps/adapter/src/plugins/circuit-breaker.ts:101-111 | of all requests from the start of a half-open period on, exactly the first is admitted |
| `CircuitBreakers.OpenWaitsForCooldown` | apps/adapter/src/plugins/circuit-breaker.ts:101-106 | while open, before its cooldown and without success, health close or disable, nothing is admitted and it stays open |
| `CircuitBreakers.CounterCountsRun` | apps/adapter/src/plugins/circuit-breaker.ts:114-163 | the counter is the number of failures since the last reset, whatever else was called |
| `CircuitBreakers.TripsExactlyAtThreshold` | apps/adapter/src/plugins/circuit-breaker.ts:133-147 | a closed breaker opens on a call if and only if it is an enabled failure that brings the failures since the last reset to the threshold |
| `CircuitBreakers.AtThresholdStep` | apps/adapter/src/plugins/circuit-breaker.ts:72-163 | one call, from any state: closed and at the threshold afterwards if and only if a partial result closed a trial that was, or a new threshold met the failures of a closed breaker, or it stood so before and the call leaves it |
| `CircuitBreakers.AtThresholdIffStands` | apps/adapter/src/plugins/circuit-breaker.ts:72-163 | over every run, reconfigurations included: a closed breaker stands at its threshold if and only if such a call brought it there and every later one left it |
| `CircuitBreakers.ClosedAtThresholdIff` | apps/adapter/src/plugins/circuit-breaker.ts:114-147 | in runs that reconfigure neither switch nor threshold: if and only if a trial since the last reset ended in a partial result |
| `CircuitBreakers.PartialTrialLeavesRun` | apps/adapter/src/plugins/circuit-breaker.ts:121-130 | for every threshold, a run of calls that ends so by a partial result |
| `CircuitBreakers.LoweredThresholdMeetsRun` | apps/adapter/src/plugins/circuit-breaker.ts:75-82 | a run that ends so by a lowered threshold |
| `Outboxes.SinkOutbox.Enqueue` | apps/adapter/src/plugins/outbox.ts:153-172 | empty ignored, oversized refused and counted, others appended and trimmed; nothing lost uncounted; other sinks untouched |
| `Outboxes.SinkOutbox.EnforceBounds` | apps/adapter/src/plugins/outbox.ts:227-253 | the shifting loop leaves the trimmed queue and counts exactly what it evicts |
| `Outboxes.SinkOutbox.Reconfigure` | apps/adapter/src/plugins/outbox.ts:143-146 | every queue is cut to the new bounds, and what is cut is counted |
| `Outboxes.SinkOutbox.Take` | apps/adapter/src/plugins/outbox.ts:195-201 | returns the whole queue and leaves it empty |
| `Outboxes.SinkOutbox.RequeueFront` | apps/adapter/src/plugins/outbox.ts:207-213 | the entries go in front of later arrivals, trimmed, with nothing lost uncounted |
| `Outboxes.SinkOutbox.Clear` | apps/adapter/src/plugins/outbox.ts:216-224 | empties the queue and counts it as dropped |
| `Outboxes.TrimmedIsLongestFit` | apps/adapter/src/plugins/outbox.ts:226-253 | eviction leaves the longest suffix that meets both bounds |
| `Outboxes.OwnBatchSurvives` | apps/adapter/src/plugins/outbox.ts:156-171 | a batch within the update bound survives its own arrival if and only if the entry bound admits a batch at all |
| `Publishers.Publisher.OfferAll` | apps/adapter/src/plugins/publisher.ts:105-123 | the first loop of a publish takes, for every active sink, the publish step of the state machine; it attempts exactly the sinks whose step adds the batch to those being sent (with `SinkHealth`: closed, or tripped and past the cooldown), and gives each other one its skipped result |
| `Publishers.Publisher.AsksIff` | apps/adapter/src/plugins/publisher.ts:117-118 | after any calls the breaker a publish asks admits it if and only if the run of the sink asks it in the sense of `SinkHealth` |
| `Publishers.Publisher.Offer` | apps/adapter/src/plugins/publisher.ts:117-123 | one round: breaker asked, or batch buffered and the sink reported as skipped, as the publish step says; other sinks untouched |
| `Publishers.Publisher.Settled` | apps/adapter/src/plugins/publisher.ts:150-178 | one settled result is the settle step for its sink, whichever pending publish it answers, so that `SinkHealth` says what it does to the sink; success and buffered count as reported |
| `Publishers.Publisher.StatusOf` | apps/adapter/src/plugins/publisher.ts:180-190 | the status of a publish, from its results |
| `Publishers.Publisher.OnSinkHealthy` | apps/adapter/src/plugins/publisher.ts:198-201 | is the health step, after which every publish is sent (`HealthAdmits`); a sink without a breaker stays as it is |
| `Publishers.Publisher.BeginFlushing` | apps/adapter/src/plugins/publisher.ts:217-220 | is the start of a flush: all that is queued is taken |
| `Publishers.Publisher.FlushAnswered` | apps/adapter/src/plugins/publisher.ts:227-264 | one answer to any running flush is the answer step: goes on, gives up poison, or puts everything back in front; throws at its end exactly when the outbox is off |
| `Publishers.Publisher.DiscardOutbox` | apps/adapter/src/plugins/publisher.ts:276-281 | is the discard step for every sink; what was pending is reported, sink by sink |
| `Publishers.Publisher.Reconfigure` | apps/adapter/src/plugins/publisher.ts:69-88 | is the configure step for every sink, whether the outbox is cut, discarded or made |
| `Publishers.Publisher.Conserves` | apps/adapter/src/plugins/publisher.ts:61-327 | after any sequence of calls, for every sink: offered = delivered + redelivered + dropped + queued + held by flushes + being published + left to at-most-once delivery + vanished |
| `Publishers.Publisher.KeepsQueues` | apps/adapter/src/plugins/publisher.ts:61-327 | after any sequence of calls each queue is within the bounds in force, and in order of arrival when flushes of its sink do not overlap |
| `SinkHealth.TripsIff` | apps/adapter/src/plugins/publisher.ts:150-178 | over every run with the breaker on and left alone: a closed sink trips, as of that time, if and only if a publish throws and at least the threshold have thrown since the last full delivery or health close; otherwise it stays closed |
| `SinkHealth.ThrowsAreCounted` | apps/adapter/src/plugins/publisher.ts:150-201 | the failures a breaker counts are exactly those throws, over every run |
| `SinkHealth.FewThrowsStayClosed` | apps/adapter/src/plugins/publisher.ts:117-178 | with fewer throws than that, a closed sink stays closed and every publish is sent |
| `SinkHealth.TrippedIsSkipped` | apps/adapter/src/plugins/publisher.ts:117-178 | a tripped sink shown no health stays tripped, and a publish is sent to it if and only if its cooldown has passed |
| `SinkHealth.HealthAdmits` | apps/adapter/src/plugins/publisher.ts:157-201 | after a full delivery or a health close every publish is sent, whatever was before |
| `SinkHealth.PartialKeeps` | apps/adapter/src/plugins/publisher.ts:160-163 | a partial result leaves the count of throws alone; it closes a trial and leaves any other sink as it was |
| `DeliveryEffects.CountsStep` | apps/adapter/src/plugins/publisher.ts:105-264 | each counter grows on a step by exactly the updates that ended its way |
| `DeliveryEffects.QueueStep` | apps/adapter/src/plugins/outbox.ts:153-253 | what a step leaves queued: the longest suffix, within the bounds in force, of queue and failed batch, or of refused flush and queue; nothing, or all as it was, otherwise |
| `DeliveryEffects.WaitingStep` | apps/adapter/src/plugins/publisher.ts:105-178 | a publish that is sent waits for its outcome until that settles it |
| `DeliveryEffects.FlushesStep` | apps/adapter/src/plugins/publisher.ts:217-264 | what a step leaves of the running flushes: all that was queued begins one, a flush goes on behind its head with one attempt more, a refused or finished one ends |
| `Delivery.DeliveryConserves` | apps/adapter/src/plugins/publisher.ts:69-281 | over every interleaving, options changing at will: offered = delivered + redelivered + dropped + queued + held by flushes + being published + left to at-most-once delivery + vanished |
| `Delivery.NothingUnretained` | apps/adapter/src/plugins/publisher.ts:293-327 | with the outbox on and partial results retried throughout, nothing is left to at-most-once delivery |
| `Delivery.VanishesIff` | apps/adapter/src/plugins/publisher.ts:243-264 | updates vanish on a step if and only if it refuses a flush that the outbox was switched off under |
| `Delivery.NothingVanishes` | apps/adapter/src/plugins/publisher.ts:69-88 | no run that never switches the outbox off under a flush loses an update uncounted |
| `DeliveryQueue.CutOffFlushVanishes` | apps/adapter/src/plugins/publisher.ts:83-264 | a run that does, and loses one |
| `DeliveryQueue.QueueStaysBounded` | apps/adapter/src/plugins/outbox.ts:226-253 | after every step of every run, options changing at will, both bounds in force hold |
| `DeliveryQueue.QueueStaysInOrder` | apps/adapter/src/plugins/publisher.ts:264-265 | with one flush at a time what is still to send stays in order of arrival, also around requeues |
| `DeliveryQueue.OverlappingRefusalsReorder` | apps/adapter/src/plugins/publisher.ts:217-265 | in any state with two flushes running, both refused and all fitting, the later flush ends up in front of the earlier |
| `DeliveryQueue.OverlappingFlushesReorder` | apps/adapter/src/plugins/publisher.ts:217-265 | such a state is reached: without that condition some run ends with a queue out of order |
| `DeliveryAttempts.QueueStaysRetriable` | apps/adapter/src/plugins/publisher.ts:231-265 | unless the number of attempts is lowered, every queued entry has attempts left, and so has all that waits in a flush, also when flushes overlap |
| `DeliveryAttempts.OnlyOldestIsTried` | apps/adapter/src/plugins/publisher.ts:217-265 | with one flush at a time, only the oldest entry still to send has ever been tried |
| `DeliveryAttempts.StrandsIff` | apps/adapter/src/plugins/publisher.ts:69-265 | in such a state, with attempts left for all that is queued: a step takes the last one away if and only if it is a configuration, with no flush running, that cuts nothing from the queue and allows no more attempts than its oldest entry has had |
| `DeliveryAttempts.AlwaysAttemptsLeftIff` | apps/adapter/src/plugins/publisher.ts:69-265 | over every run with one flush at a time, whatever is configured: every queued entry always has attempts left if and only if no such configuration comes |
| `DeliveryAttempts.LoweredAttemptsStrand` | apps/adapter/src/plugins/publisher.ts:69-88 | a run with one flush at a time that leaves an entry without |
| `DeliveryAttempts.RefusalStrandsIff` | apps/adapter/src/plugins/publisher.ts:243-265 | a refused flush that fits strands an entry if and only if one behind its head has had all its attempts |
| `DeliveryAttempts.OverlappingFlushesStrand` | apps/adapter/src/plugins/publisher.ts:217-265 | a run with overlapping flushes in which that happens |
| `Flushing.FlushEntries` | apps/adapter/src/plugins/publisher.ts:222-262 | the flush loop stops at the first failure with attempts left, keeps that entry and all behind it, and loses no update |
| `Flushing.FlushIsItsAnswers` | apps/adapter/src/plugins/publisher.ts:217-273 | the loop, uninterrupted, does what its answers do as single steps of the state machine |
| `RenderState.KeyframeStateAccumulator.Apply` | apps/simulator/src/modules/RecordingManager.ts:150-202 | the switch, with its loops, is the fold's step for every event type; what the fold then holds is told by the four laws of `LastWriters` |
| `LastWriters.IncidentsAreLast` | apps/simulator/src/modules/RecordingManager.ts:174-194 | an incident is held, with that record, if and only if some event created it and none since created it again, cleared it or reset |
| `LastWriters.DirectionsAreLast` | apps/simulator/src/modules/RecordingManager.ts:162-194 | a drawn route is held if and only if some event set it and none since set it again, completed it, despawned its vehicle or reset |
| `LastWriters.VehiclesAreLast` | apps/simulator/src/modules/RecordingManager.ts:153-194 | a vehicle is held, with that record, if and only if it is the last an event has for it and none since names it, despawns it or resets |
| `LastWriters.HeatzonesAreLast` | apps/simulator/src/modules/RecordingManager.ts:181-194 | the heat zones are those of the last event that brought any, unless a reset came since |
| `RenderState.KeyframeStateAccumulator.LoadFrom` | apps/simulator/src/modules/RecordingManager.ts:124-138 | the three loops rebuild the state a keyframe describes |
| `RenderState.KeyframeRoundTrip` | apps/simulator/src/modules/RecordingManager.ts:123-138 | loading the keyframe of a state gives back the state, order included |
| `RenderState.FoldShows` | apps/simulator/src/modules/RecordingManager.ts:150-202 | folding the same events keeps one state showing all another does |
| `Recording.RecordingManager.RecordEvent` | apps/simulator/src/modules/RecordingManager.ts:522-558 | any event by any caller: exactly its line, with the keyframe when due, of the state it leads to; paced and counted, and the keyframes stay faithful when the event keeps the accumulator in step |
| `Recording.RecordingManager.AppendEvent` | apps/simulator/src/modules/RecordingManager.ts:532-553 | exactly the event's line and the keyframe it calls for, of the state after the event |
| `Recording.RecordingManager.CaptureVehicleSnapshot` | apps/simulator/src/modules/RecordingManager.ts:474-514 | every vehicle is tracked, exactly as captured when ids are distinct; one event of the moved ones is written, if any; the baseline is theirs; tracked fleet and log stay in step |
| `Snapshots.DistinctAreMoved` | apps/simulator/src/modules/RecordingManager.ts:479-509 | what the loop gathers is, in order, the vehicles that have moved off the baseline of the last snapshot |
| `Snapshots.MovedIff` | apps/simulator/src/modules/RecordingManager.ts:494-506 | a vehicle is written if and only if it has no baseline or is off it by the threshold on some axis, and always in raw mode |
| `Snapshots.AllAreTracked` | apps/simulator/src/modules/RecordingManager.ts:488-513 | tracking all and applying the event leaves every vehicle as it was captured, written or not |
| `Snapshots.BaselineIs` | apps/simulator/src/modules/RecordingManager.ts:509 | a vehicle's baseline is where it was last written |
| `Recording.RecordingManager.StartRecording` | apps/simulator/src/modules/RecordingManager.ts:321-399 | refused while recording, with nothing changed; otherwise an empty recording in a valid state |
| `Recording.RecordingManager.StopRecording` | apps/simulator/src/modules/RecordingManager.ts:404-460 | refused when idle; the finished file is paced (every due keyframe comes at once), and faithful (every keyframe restores its events) when in step; duration and event count are those of the file |
| `Recording.LatestIsLatest` | apps/simulator/src/modules/RecordingManager.ts:404-449 | the duration of a raw recording is the latest timestamp of its events, or 0 |
| `Recording.RecordingManager.FlushBuffer` | apps/simulator/src/modules/RecordingManager.ts:583-589 | flushing at any moment changes nothing of what is recorded |
| `Recording.RecordingManager.StaysInStep` | apps/simulator/src/modules/RecordingManager.ts:522-546 | in raw mode any event, in live mode any but a vehicle one, keeps the recording in step, whoever records it |
| `Recording.VehicleEventKeepsTrackIff` | apps/simulator/src/modules/RecordingManager.ts:474-546 | in live mode a vehicle event, by whatever caller, keeps the recording in step if and only if it leaves every vehicle it names exactly on its baseline |
| `Recording.ForeignVehiclesSpoilFile` | apps/simulator/src/modules/RecordingManager.ts:474-553 | a recording that such an event puts out of step, and whose next keyframe does not restore its events |
| `Replay.ReplayManager.LoadRecording` | apps/simulator/src/modules/ReplayManager.ts:105-165 | refused without the right header or without events; otherwise events and keyframe index of the file, each keyframe with the number of events before it |
| `Replay.ReplayManager.FirstAtOrAfter` | apps/simulator/src/modules/ReplayManager.ts:289-299 | binary search for the first event at or after the target |
| `Replay.ReplayManager.ChooseKeyframe` | apps/simulator/src/modules/ReplayManager.ts:342-356 | binary search for the newest keyframe that covers no event from the target on |
| `Replay.ReplayManager.RestoreStateAt` | apps/simulator/src/modules/ReplayManager.ts:339-377 | the keyframe's state rolled forward by exactly the events in between |
| `Replay.ReplayManager.SeekTo` | apps/simulator/src/modules/ReplayManager.ts:285-302 | refused without a recording; the target is the first event at or after the asked time, and what is restored stands for all earlier events: exactly in raw mode, to the eye in live mode |
| `Replay.SeekRestoresFold` | apps/simulator/src/modules/ReplayManager.ts:331-384 | in any file the recorder writes a seek restores the fold of all earlier events: exactly in raw mode; in live mode the same routes, incidents and zones, and every vehicle within the threshold |
| `Replay.SeekCostIsBounded` | apps/simulator/src/modules/RecordingManager.ts:546-553 | every event a seek rolls forward lies less than one interval after the chosen keyframe |
| `Eta.PriceRoute` | apps/simulator/src/modules/eta.ts:121-190 | every edge is driven in the time its distance takes at the lower of the vehicle's own and the road's speed in this weather (learned before free-flow before posted), at 1 km/h or more; its other seconds are delay and turn alone; suffixes add up; the breakdown has each kind, and sums to the total |
| `Eta.PriceEdges` | apps/simulator/src/modules/eta.ts:128-162 | the first loop: per-edge prices, the running sums of each kind, and learned kilometres |
| `Eta.PricesTellRoads` | apps/simulator/src/modules/eta.ts:128-172 | any pricing of the walk tells the roads so, edge by edge and suffix by suffix |
| `Eta.SuffixSums` | apps/simulator/src/modules/eta.ts:164-172 | back to front, entry i is everything from i on |
| `Eta.LookupIsWalk` | apps/simulator/src/modules/eta.ts:205-214 | the constant-time ETA is the walk over the remaining edges less the driven share of the current edge's driving |
| `Eta.DistanceLookupIsWalk` | apps/simulator/src/modules/eta.ts:217-225 | likewise for the distance readout |
| `Eta.CoveredShare` | apps/simulator/src/modules/eta.ts:205-225 | the driven share goes from nothing at progress 0 to all at 1, and not beyond |
| `Eta.EtaNeverRises` | apps/simulator/src/modules/RouteManager.ts:250-260 | going forward along the route never raises the ETA, also from before its first edge |
| `Movement.UpdatePositionCore` | apps/simulator/src/modules/RouteManager.ts:562-619 | terminates; covers exactly speed times time unless the route ends; never moves back; on positive edges completes if and only if the distance reaches the end |
| `Movement.Drive` | apps/simulator/src/modules/RouteManager.ts:576-615 | the loop, for any distance |
| `Movement.TickKmIsSpeed` | apps/simulator/src/modules/RouteManager.ts:568 | what a tick drives is speed times time: in an hour the speed, in kilometres |
| `Movement.FinishEdge` | apps/simulator/src/modules/RouteManager.ts:579-608 | to the end of the edge and onto the next, or arrival |
| `Movement.PartEdge` | apps/simulator/src/modules/RouteManager.ts:609-614 | part of the way, progress kept within [0, 1] |
| `Movement.NextEdge` | apps/simulator/src/modules/RouteManager.ts:465-485 | the edge after the vehicle's, found by id when it has no index; none at the end |
| `Movement.TickWithEta` | apps/simulator/src/modules/RouteManager.ts:250-260 | one tick of driving never raises the reported ETA, also in the not-yet-on-route window; what is reported after it is the time from the current edge on less its driven share |
| `EditDistances.EditDistance` | apps/adapter/src/plugins/validation.ts:92-104 | the two-row table computes the distance |
| `EditDistances.DistanceIsShortest` | apps/adapter/src/plugins/validation.ts:91-104 | the distance is the length of a shortest script of single-character insertions, deletions and substitutions |
| `EditDistances.TriangleInequality` | apps/adapter/src/plugins/validation.ts:91-104 | going through a third string is never shorter |
| `EditDistances.DistanceIsSymmetric` | apps/adapter/src/plugins/validation.ts:91-104 | symmetric |
| `EditDistances.ZeroIffEqual` | apps/adapter/src/plugins/validation.ts:91-104 | zero if and only if the strings are equal |
| `EditDistances.Suggest` | apps/adapter/src/plugins/validation.ts:107-120 | the first candidate of least distance; one exactly when some candidate is within two edits, or one for every three characters |
| `Buckets.ReadBucketed` | apps/simulator/src/modules/StateStore.ts:693-749 | the streaming read is the group-by of the fetched rows cut to the newest `limit` keys, each bucket with all its rows; the rows scanned are exactly those in the buckets; scanned + omitted = matched; truncated with nothing omitted if and only if exactly a cap's worth of rows matches, in at most `limit` buckets |
| `Buckets.FetchedAreNewest` | apps/simulator/src/modules/StateStore.ts:697-702 | the rows fetched are the newest of the window, as many as the scan cap lets through |
| `Buckets.FullScanInOneBucket` | apps/simulator/src/modules/StateStore.ts:731-749 | an input that is reported truncated with nothing omitted, for any width and limit |
| `Buckets.StreamRows` | apps/simulator/src/modules/StateStore.ts:693-736 | the loop with both its early stops, for any keys that fall |
| `Buckets.Accumulate` | apps/simulator/src/modules/StateStore.ts:239-265 | a bucket and one more row: sums, counts, newest and oldest over exactly its rows |
| `Buckets.AccumulateFleets` | apps/simulator/src/modules/StateStore.ts:246-264 | per fleet: newest sample first seen, sums over all its samples |
| `Buckets.GroupKeysFall` | apps/simulator/src/modules/StateStore.ts:704-727 | bucket keys fall strictly |
| `Buckets.SpanHoldsSamples` | apps/simulator/src/modules/StateStore.ts:268-304 | a finished bucket's span holds its newest and oldest sample |
| `Buckets.RowIsMeans` | apps/simulator/src/modules/StateStore.ts:268-304 | a finished row has the rounded mean of each figure over exactly its rows, a missing one as zero; all else is as of the newest row |
| `Buckets.FleetIsMeans` | apps/simulator/src/modules/StateStore.ts:285-294 | likewise each fleet over all its samples in those rows |
| `Buckets.PickAutoBucket` | apps/simulator/src/modules/StateStore.ts:184-190 | the smallest width of the ladder that fits the span, or the largest |
| `Buckets.ReadAuto` | apps/simulator/src/modules/StateStore.ts:682-736 | the width is a minute without data, otherwise the smallest that covers all rows in `limit` buckets, or a day; over at most `limit` days at most one bucket is dropped |
| `Buckets.AutoDropsAtMostOne` | apps/simulator/src/modules/StateStore.ts:682-691 | the reason: a width that fits the span leaves at most one key beyond `limit` |
| `Realism.RealismGuarantees` | apps/adapter/src/realism/RealismEngine.ts:227-278 | over every run of one device id with a clock that never runs back: published timestamps strictly increase, also across evictions; buffers bounded, and empty while in reach; every sample built is published, buffered or lost exactly once |
| `Realism.TickKeepsSound` | apps/adapter/src/realism/RealismEngine.ts:233-267 | each branch of a tick keeps the invariant |
| `Realism.RealismEngine.Ingest` | apps/adapter/src/realism/RealismEngine.ts:85-111 | every id is refreshed by its updates in order, as `StoreForward.LastUpdateCounts` and `NoUpdateForIt` read it, and the invariant holds for all ids |
| `Realism.RealismEngine.Tick` | apps/adapter/src/realism/RealismEngine.ts:227-267 | each device is ticked once, with what that publishes, keeps and loses told by `StoreForward`; the batch holds, per id, exactly what was published for it, in order; skipped while a publish is outstanding |
| `Realism.RealismEngine.TickDevice` | apps/adapter/src/realism/RealismEngine.ts:233-267 | the loop's body takes exactly the tick that `StoreForward` describes |
| `StoreForward.LosesIff` | apps/adapter/src/realism/RealismEngine.ts:240-258 | a tick loses samples if and only if the device is stale with a backlog, or a sample is due, out of reach, and is not stored or finds the buffer full |
| `StoreForward.LostAre` | apps/adapter/src/realism/RealismEngine.ts:240-258 | which: the backlog of a stale device, the new sample when nothing is stored, the oldest when all is full |
| `StoreForward.PublishesIff` | apps/adapter/src/realism/RealismEngine.ts:246-267 | samples are published if and only if one is due and the device is in reach: the whole backlog, oldest first, then the new one |
| `StoreForward.KeepsFor` | apps/adapter/src/realism/RealismEngine.ts:240-265 | what stays stored: the backlog with the new sample when that is out of reach, cut to the newest; nothing once published or evicted |
| `StoreForward.BuildsIff` | apps/adapter/src/realism/RealismEngine.ts:205-247 | a sample is built if and only if one is due; it carries what was last ingested and whether the device is in reach |
| `StoreForward.GoesIff` | apps/adapter/src/realism/RealismEngine.ts:193-247 | a device goes if and only if it is stale; otherwise its next sample is the reporting period with its jitter away, and 50 ms at least |
| `StoreForward.LastUpdateCounts` | apps/adapter/src/realism/RealismEngine.ts:85-111 | of several updates for an id the last counts |
| `StoreForward.NoUpdateForIt` | apps/adapter/src/realism/RealismEngine.ts:86-87 | a device that no update names is left alone |
| `StoreForward.HeardOf` | apps/adapter/src/realism/RealismEngine.ts:87-109 | a device heard of keeps its schedule and backlog; a new one is due at once |
| `StoreForward.NothingLostIff` | apps/adapter/src/realism/RealismEngine.ts:227-278 | over every run: nothing has been lost if and only if no tick met such a condition |
| `StoreForward.KeptInOrder` | apps/adapter/src/realism/RealismEngine.ts:227-278 | as long as nothing has been lost, published and stored together are all samples built, in order |
| `StoreForward.ReconnectingPublishesAll` | apps/adapter/src/realism/RealismEngine.ts:246-267 | if nothing has been lost, a tick in reach leaves every sample ever built published, in order |
| `StoreForward.ReportsLastIngest` | apps/adapter/src/realism/RealismEngine.ts:85-111 | over every run a device reports what was last ingested for it, and counts as heard of then |
| `Framing.ToLines` | apps/adapter/src/replay/ReplayEmitter.ts:114-126 | the lines depend on the concatenated text alone, not on the chunks |
| `Framing.LinesAreTheText` | apps/adapter/src/replay/ReplayEmitter.ts:114-126 | the lines, each with its break, are the text, with a break at its end if it had none; no line has one inside |
| `Framing.LinesOfConcat` | apps/adapter/src/replay/ReplayEmitter.ts:116-125 | text that arrives later is split as if it followed what is left over |
| `Framing.FramingRoundTrip` | apps/simulator/src/modules/RecordingManager.ts:583-589 | lines written at any flush points and read in any chunks come back as they were, in order |

## Left out

- Floating point: all arithmetic is exact. Node keys are opaque, so `toFixed` is not modelled, nor are rounding effects in clipping, pricing and bucket averages (`roundValue` is a parameter).
- HeatZones.HeatZoneManager.AddZone: takes the id as given and does not model minting one, the timestamp, the radius and the returned feature; neither query reads them.
- HeatZones.HeatZoneManager.UpdateZone: does not model radius, timestamp, origin, base intensity and the returned feature, nor time-of-day scaling, because neither query reads them; a polygon is a value, so a caller that mutates a polygon it handed over is not covered.
- HeatZones.HeatZoneManager.AppendGenerated: does not model random placement, smoothing and time scaling, because the generated zones are arbitrary inputs.
- Polyline.PathRoundTrip: does not model coordinates that are no finite number.
- ClipLines.ClipGeometry: does not model altitudes (a clipped point has two coordinates in the source as well) and object identity, so that an untouched geometry comes back as the same object is not stated.
- Validate.AnalyzeNetwork: its sort is an insertion sort here; the engine's own sort is not modelled.
- Publishers.Publisher.OfferAll: does not model contexts, error texts, metrics and logging; results are by sink, so their order in the response is not stated.
- Publishers.Publisher.Offer: does not model the context and the error text of a skipped sink.
- Publishers.Publisher.Settled: does not model the context, the error text, a sink's item counts and the delivery metrics.
- Publishers.Publisher.FlushAnswered: entries are values, and the attempt count goes with them; the totals a flush returns are those of `FlushEntries` and not gathered here; metrics and logging are left out.
- Recording.RecordingManager.StartRecording: does not model the header line, the file's name and its flush timer; a file is the sequence of its parsed lines after the header.
- Recording.RecordingManager.StopRecording: of the metadata only duration and event count are modelled; start time, file path and size and vehicle count are not.
- Recording.RecordingManager.AppendEvent: an event without data is not represented, and the clock is a parameter.
- Replay.ReplayManager.LoadRecording: takes the file's lines parsed; blank lines, lines that are no JSON and reading the file are left out.
- Replay.ReplayManager.SeekTo: does not model playback, pausing and the channels a restored state is emitted on.
- Movement.UpdatePositionCore: does not model bearing, traffic counts, the traversal recorder and movement without a route; arrival is reported instead of starting a dwell or the next leg.
- Movement.NextEdge: does not model movement without a route and what a completed route starts.
- Movement.TickWithEta: keeps the pricing of the route fixed, so repricing on a weather change is not covered.
- EditDistances.Suggest: lower-casing is an arbitrary function, and characters are compared as code units.
- Buckets.ReadBucketed: does not model the database, the parsing of widths, labels, payload order, the covered range and the order of the answer; timestamps are milliseconds instead of ISO strings.
- Buckets.ReadAuto: as ReadBucketed.
- Realism.RealismEngine.Ingest: does not model the pass-through when the engine is disabled, the count of accepted updates, reconfiguration, and the noise and link models; reported positions and link states are arbitrary.
- Realism.RealismEngine.Tick: a batch counts as published when it is handed over, also if the publish then fails; devices are visited in any order.
- Framing.FramingRoundTrip: does not model JSON, so that a recorded line has no break inside is its precondition.
- Job assignment, incidents, geofences, fleets, scenarios, path finding, the HTTP and WebSocket interfaces and the user interface are not modelled.
