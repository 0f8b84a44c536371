# kproxy: the planner, the connection protocol and the wire codec

kproxy is a Kafka wire-protocol proxy. It steers clients to advertised endpoints by rewriting
Metadata and FindCoordinator responses, and it replaces the assignments in a group leader's
SyncGroup request by a plan of its own. This project models the parts of it that carry those
promises and proves them for all inputs, all runs and all interleavings.

| files | what they hold |
|---|---|
| `PlanSpec` | what the planner computes, pass by pass; the donor scan over a Go map is any choice of a most-loaded donor, recorded in a trace |
| `PlanConservation`, `PlanBalance`, `PlanSteal`, `PlanRescue`, `PlanSticky`, `PlanDeterminism`, `PlanStability`, `PlanOrder` | what the plan promises: exactly-once, optimal balance, feasibility, stickiness, order independence, fixed points, the order of things |
| `PlanExamples` | inputs on which the planner falls short of its own comments, and one from lag to plan |
| `PlanCompute` | the planner as it runs: loops over maps in any order, the free pool with tombstones, load and weight maps |
| `Wire`, `Metadata`, `Coordinator`, `Groups`, `Header` | the wire format as readers at an offset and appenders, with round trips, bounds and header locality |
| `Layout`, `Decoding` | the encodings written out field by field; where headers end, what is refused, messages byte by byte |
| `Cursor`, `Decoders` | the cursor and the decoders and encoders that advance it, proved against those readers and appenders |
| `Topology` | the mapping and the in-place rewriting of responses |
| `Frames` | length-prefixed frames over byte streams |
| `Tracker`, `Connection`, `Sweeps`, `Pumps`, `ClientView` | the correlation tracker; the two pumps, the broker and the clock interleaved; the pumps as loops; what the client decodes |
| `Subscriptions`, `MetadataCache`, `Freshness` | the bounded two-level store; the single-flight refresh as thread steps; which result is published when |
| `Interceptor`, `PlanView`, `LeaderSync` | the request handlers; what the planner is asked; what the broker decodes from a rewritten SyncGroup |

Strings are byte sequences, Go `int` is unbounded (sizes stay far below 2^63), int16, int32
and uint32 are written out. Time, Go map iteration, what the peer sends and what a fetch
returns are parameters or free choices of a step.

Where code and comments disagree, the model follows the code:

- The planner's comment promises equal outputs for equal inputs (internal/plan/plan.go:57-58).
  Donor ties are broken by map order: `OrderShows` has an input with two outcomes, and
  `DeterministicIff` says exactly when the outcome is unique.
- The feasibility comment (internal/plan/plan.go:14-15, 172-174) promises every member a
  partition when there are enough. The donor is chosen by total load, not by its load of the
  topic: in `StarvesInPlenty` a member starves in every run. `SoleTopicServedIff` says for which
  inputs the promise holds where subscribers share one topic, and `FirstHungryServedIff` when the
  first member to go hungry is served, for any topics.
- The free pool overwrites removed keys by a zero key (internal/plan/plan.go:298), so partition
  0 of a topic named "" can be handed out several times, as in `HandedOutTwice`. `Conservation`
  counts it exactly and `ExactlyOnce` gives the condition. The comment that keys are added in
  sorted order (internal/plan/plan.go:267-269) does not hold either; the order comes from `forEach`.
- The upstream pump's comment says frames are forwarded byte for byte (internal/proxy/conn.go:137-141);
  a SyncGroup payload is replaced.
- A response that must be rewritten passes raw when a sweep has dropped its entry
  (internal/proxy/correlation.go:95-99, 129-135). `RawIffSwept` says by which registrations,
  `LateForcesRaw` from when on this has to happen, and `LateIsRaw` is a run.
- Refresh is said to return the published snapshot (internal/metadata/cache.go:94-95). It
  returns what the fetch returned, and an older result can overwrite a newer one:
  `AlwaysNewestIff` says in which runs, and `OlderMayWin` is one.
- `Mapping.Add` reports a clash of addresses only after the node id has been entered
  (internal/topology/topology.go:74-86): `EntersThoughRefusedIff`, `RefusedYetSteered`.

## Model

| member | source | states |
|---|---|---|
| PlanCompute.Compute | internal/plan/plan.go:59-224 | the result is the end of a possible run of the specified passes, and holds every partition exactly as often as the inputs demand |
| PlanCompute.FreePool.Add | internal/plan/plan.go:280-290 | the pool's live keys gain the key; slots are the live keys and the tombstones |
| PlanCompute.FreePool.Remove | internal/plan/plan.go:292-301 | removes a live key and leaves one tombstone more |
| PlanCompute.FreePool.Remaining | internal/plan/plan.go:305-321 | live keys in topic and partition order, the zero key again at every tombstone |
| PlanCompute.IndexMembers | internal/plan/plan.go:65-72 | sorted ids with repeats, and the last member under each id |
| PlanCompute.IndexSubscribers | internal/plan/plan.go:74-84 | for every topic exactly its subscribers |
| PlanCompute.RetainPrevious | internal/plan/plan.go:93-110 | the sticky pass in any map order yields the specified plan and free keys |
| PlanCompute.Weights | internal/plan/plan.go:115-133 | every member's weight |
| PlanBalance.WeightIs | internal/plan/plan.go:115-133 | weight 100 iff the lag is below 1000, one less per 1000 messages, 1 iff it is 99000 or more |
| PlanBalance.WeightSteps | internal/plan/plan.go:115-133 | a thousand messages more, one unit of weight less |
| PlanCompute.InitialLoads | internal/plan/plan.go:140-145 | initial loads are the real counts |
| PlanCompute.BestOwner | internal/plan/plan.go:151-165 | the scan finds the specified best owner |
| PlanCompute.Distribute | internal/plan/plan.go:146-170 | distribution yields the specified plan, and every load stays the real count |
| PlanCompute.FindDonor | internal/plan/plan.go:187-197 | the map scan comes back with some most-loaded other subscriber, or nobody |
| PlanCompute.StealFor | internal/plan/plan.go:175-211 | one member's attempts follow a run of the specification, and every load stays the real count through each steal |
| PlanCompute.StealPass | internal/plan/plan.go:175-212 | the whole pass follows such a run from the distributed plan, and the loads end as the real counts |
| PlanCompute.SortAll | internal/plan/plan.go:216-221 | every list sorted, nothing else changed |
| PlanConservation.StickyIs | internal/plan/plan.go:93-110 | a member holds (t, p) after the sticky pass iff it is listed and the member is the least id that held it and still subscribes |
| PlanConservation.Conservation | internal/plan/plan.go:86-221 | for all inputs and runs, the final plan holds each partition exactly as often as a closed form over the inputs says |
| PlanConservation.ExactlyOnce | internal/plan/plan.go:86-221 | no partition twice iff there is no tombstone clash; then exactly the listed partitions that somebody can take (or kept) are owned, once |
| PlanConservation.FinalSound | internal/plan/plan.go:100-212 | in every run owners subscribe to what they own and only listed partitions are owned |
| PlanConservation.RunTidy | internal/plan/plan.go:175-212 | without a clash the plan has one owner per partition through every steal |
| PlanBalance.BestBeats | internal/plan/plan.go:151-165 | the chosen owner beats every other subscriber by score, then load, then id |
| PlanBalance.DistributionFills | internal/plan/plan.go:146-170 | water filling: whoever received something has load at most load_i + 8 * (w_j - w_i) + 1 for every i |
| PlanBalance.DistributionOptimal | internal/plan/plan.go:115-170 | with shared topics the load vector minimises the sum of (load - 8 * weight)^2 among all that extend the sticky loads with the same total |
| PlanBalance.DistributionEven | internal/plan/plan.go:115-170 | equal weights, no previous plan: loads differ by at most one after distribution |
| PlanBalance.LowerLagGetsMore | internal/plan/plan.go:10-13 | with shared topics, whoever retained nothing gets at most one partition more than anybody whose lag is no higher |
| PlanBalance.LagDecides | internal/plan/plan.go:119-165 | with shared topics, who retained nothing and received something stays, but for one, eight partitions behind everybody per thousand messages it lags behind them |
| PlanBalance.FinalEven | internal/plan/plan.go:115-212 | and in the final plan, because the feasibility pass changes nothing |
| PlanSteal.NobodyEmptied | internal/plan/plan.go:175-212 | for all inputs and donor choices, whoever owns something after distribution owns something at the end |
| PlanSteal.StarvesIff | internal/plan/plan.go:172-212 | along a run, a member ends with nothing iff distribution gave it nothing and each of its attempts failed |
| PlanSteal.SoleTopicServedIff | internal/plan/plan.go:172-212 | in every run, all subscribers of a topic that is the only one with partitions for them are served iff it lists at least that many distinct partitions, from any previous plan and under any tie-break |
| PlanSteal.OneSharedTopicServedIff | internal/plan/plan.go:172-212 | with one topic shared by all, everybody is served iff there are at least as many distinct partitions as members |
| PlanSteal.EnoughServes | internal/plan/plan.go:172-212 | enough distinct partitions serve every subscriber of such a topic, a topic named "" included |
| PlanRescue.FirstHungryServedIff | internal/plan/plan.go:175-212 | for any topics, the first member to own nothing after distribution is served in every run iff, in that plan, one of its topics lists enough partitions and every most-loaded other subscriber holds two of them |
| PlanExamples.StarvesInPlenty | internal/plan/plan.go:14-15 | an input on which a member starves in every run though its topic has as many partitions as subscribers |
| PlanExamples.HandedOutTwice | internal/plan/plan.go:292-301 | an input on which partition 0 of the topic named "" occurs twice in the plan of every run |
| PlanExamples.TooFewServe | internal/plan/plan.go:292-301 | an input with a tombstone clash on which fewer distinct partitions than members serve everybody, in every run |
| PlanSticky.RetainedSurvives | internal/plan/plan.go:93-170 | what the sticky pass keeps, contested ownership going to the least id, survives distribution |
| PlanSticky.NewlyDistributedGoFirst | internal/plan/plan.go:201-207 | a retained partition is stolen only when the donor has no newly distributed one of that topic left |
| PlanSticky.FewRetainedLost | internal/plan/plan.go:175-212 | the final plan loses at most one retained partition per member starved after distribution |
| PlanDeterminism.PermutedDistribution | internal/plan/plan.go:65-170 | members with distinct ids in any order: same plan after distribution |
| PlanDeterminism.OutcomeUniqueIff | internal/plan/plan.go:187-210 | one attempt has a unique outcome iff no two most-loaded donors tie with a partition to give |
| PlanDeterminism.Deterministic | internal/plan/plan.go:57-224 | permuted members and any map order: same final plan whenever one run meets no harmful tie |
| PlanDeterminism.DeterministicIff | internal/plan/plan.go:57-224 | the final plan is independent of map order iff one run, whichever, meets no harmful tie |
| PlanExamples.OrderShows | internal/plan/plan.go:57-58 | an input with two runs that end in different plans |
| PlanExamples.LagShows | internal/plan/plan.go:59-224 | an input with a lag followed to its plan, the same in every run |
| PlanStability.Stable | internal/plan/plan.go:86-170 | a previous plan that is valid and complete is what distribution ends with |
| PlanStability.Replanned | internal/plan/plan.go:59-224 | planning again from the planner's own result starts feasibility from it, and is a fixed point once everybody owns something, under any donor choice |
| PlanOrder.IndexIs | internal/plan/plan.go:65-72 | ids in byte order, as often as members have them, and under each id its last member |
| PlanOrder.StrLeqIs | internal/plan/plan.go:72-72 | a string comes first if it is a prefix, or has the smaller byte at the first difference |
| PlanOrder.HandedOutInOrder | internal/plan/plan.go:305-321 | free partitions go out by topic in byte order, then by number |
| PlanOrder.TurnsInOrder | internal/plan/plan.go:175-180 | members take turns by id and try their topics in the order they list them |
| PlanOrder.ScarceTopicsYieldNothing | internal/plan/plan.go:181-185 | who owns nothing after distribution and has only topics with fewer partitions than subscribers ends with nothing |
| PlanOrder.OwnersGainNothing | internal/plan/plan.go:175-178 | who owns something after distribution gets nothing more |
| PlanOrder.HungryGetOne | internal/plan/plan.go:205-211 | who owns nothing after distribution ends with one partition at most |
| PlanOrder.KeepsOneOf | internal/plan/plan.go:201-204 | nobody loses its last partition of a topic |
| PlanOrder.FinalListsSorted | internal/plan/plan.go:214-221 | the lists of the final plan go upwards, strictly without a tombstone clash |
| Wire.UvarintTrip | internal/kwire/primitives.go:186-202 | every uint32 is read back from its varint, whatever follows |
| Wire.StrTrip | internal/kwire/primitives.go:112-128 | strings, compact or not, are read back, whatever follows |
| Wire.OptBytesTrip | internal/kwire/primitives.go:399-407 | nullable byte runs are read back, null apart from empty |
| Wire.ArrTrip | internal/kwire/primitives.go:284-315 | arrays of any lawful element are read back; the remaining-bytes guard never refuses an encoded array |
| Wire.ArrReads | internal/kwire/primitives.go:284-315 | on any bytes, arrays stay in bounds and have no more elements, over all levels, than bytes read |
| Layout.Int32After | internal/kwire/primitives.go:350-352 | an int32 is four bytes, two's complement, most significant first |
| Layout.UvarintAfter | internal/kwire/primitives.go:360-366 | a varint is groups of seven bits, least significant first |
| Layout.FlexibleRequests | internal/kwire/apikey.go:37-54 | for every version: which requests are flexible, API by API |
| Layout.FlexibleResponses | internal/kwire/apikey.go:56-93 | responses are flexible when requests are, those of ApiVersions never; unlisted APIs never |
| Layout.RequestHeaderLayout | internal/kwire/header.go:68-84 | the bytes of a request header, field by field |
| Layout.ResponseHeaderLayout | internal/kwire/header.go:108-116 | the bytes of a response header |
| Layout.PartitionLayout | internal/kwire/metadata.go:383-403 | the bytes of a partition: field order and versions |
| Layout.TopicLayout | internal/kwire/metadata.go:308-344 | the bytes of a topic: field order and versions |
| Layout.MetadataLayout | internal/kwire/metadata.go:137-228 | the bytes of a Metadata response: field order, versions, flexible from 9 |
| Layout.CoordinatorLayout | internal/kwire/findcoord.go:117-217 | the bytes of a FindCoordinator response: both shapes, flexible from 3 |
| Layout.SyncGroupLayout | internal/kwire/syncgroup.go:146-196 | the bytes of a SyncGroup request: field order, versions, flexible from 4 |
| Layout.AssignmentLayout | internal/kwire/consumer_protocol.go:179-233 | the bytes of an assignment |
| Layout.SubscriptionLayout | internal/kwire/consumer_protocol.go:107-127 | the bytes of a subscription with what versions 1, 2 and 3 add |
| Decoding.RequestHeaderEnds | internal/kwire/header.go:22-63 | whether the byte behind the client id belongs to the header, for every parsed API and every version |
| Decoding.ResponseHeaderEnds | internal/kwire/header.go:92-106 | the same for the byte behind the correlation id |
| Decoding.BrokersAnnounced | internal/kwire/metadata.go:58-90 | where the number of brokers stands, and in which encoding |
| Decoding.CoordinatorsAnnounced | internal/kwire/findcoord.go:44-115 | where the number of coordinators stands |
| Decoding.GroupFirst | internal/kwire/syncgroup.go:38-60 | the group comes first, and in which encoding |
| Decoding.NullArray | internal/kwire/primitives.go:284-315 | a null array reads as an empty one |
| Decoding.LongArray | internal/kwire/primitives.go:284-315 | an array that announces more elements than bytes are left is refused |
| Decoding.NullString | internal/kwire/primitives.go:112-128 | null where a string must be is refused |
| Decoding.FlagReads | internal/kwire/metadata.go:270-285 | any byte but zero is true |
| Decoding.LongVarint | internal/kwire/primitives.go:186-202 | a varint of more than five bytes is refused |
| Decoding.FiveByteVarint | internal/kwire/primitives.go:186-202 | the value of five bytes, with what does not fit 32 bits dropped |
| Decoding.TagSkipped | internal/kwire/primitives.go:319-337 | a tagged field is skipped with its tag, its size and its bytes |
| Decoding.HeaderExample | internal/kwire/header.go:22-63 | two request headers, byte by byte |
| Decoding.EmptyMetadataExample | internal/kwire/metadata.go:58-133 | a flexible Metadata response, byte by byte |
| Decoding.SmallExample | internal/kwire/metadata.go:58-133 | a Metadata response with broker, topic and partition, byte by byte |
| Cursors.Cursor.Uvarint | internal/kwire/primitives.go:186-202 | the byte loop returns what the varint reader says |
| Cursors.Cursor.ArrLen | internal/kwire/primitives.go:284-315 | null is zero; a length above the bytes left is refused |
| Cursors.Cursor.SkipTagged | internal/kwire/primitives.go:319-337 | skips what is announced within remaining/2 + 1 rounds, whatever count is announced |
| Cursors.EncodeUvarint | internal/kwire/primitives.go:360-366 | the shifting loop appends the varint |
| MetadataMessage.MetadataTrip | internal/kwire/metadata.go:58-446 | every well-formed response at every version is decoded from its encoding plus any suffix, which is consumed exactly |
| MetadataMessage.MetadataReads | internal/kwire/metadata.go:58-133 | any body and version: in bounds, fits the version's format, no more list elements over all levels than bytes |
| CoordinatorMessage.CoordinatorTrip | internal/kwire/findcoord.go:44-215 | the same round trip for both shapes of the FindCoordinator response |
| CoordinatorMessage.CoordinatorReads | internal/kwire/findcoord.go:44-115 | in bounds, fits, no more entries than bytes |
| SyncGroupMessage.SyncGroupTrip | internal/kwire/syncgroup.go:38-196 | round trip of the SyncGroup request with any suffix |
| SyncGroupMessage.SyncGroupReads | internal/kwire/syncgroup.go:38-144 | in bounds, fits, no more slots than bytes |
| ConsumerProtocol.AssignmentTrip | internal/kwire/consumer_protocol.go:147-233 | round trip of assignments whose version's fields are present |
| ConsumerProtocol.AssignmentReads | internal/kwire/consumer_protocol.go:147-221 | in bounds, no more elements over both levels than bytes |
| ConsumerProtocol.SubscriptionTrip | internal/kwire/consumer_protocol.go:45-127 | round trip of subscriptions whose version's fields are present |
| ConsumerProtocol.SubscriptionReads | internal/kwire/consumer_protocol.go:45-105 | in bounds, no more elements over all lists than bytes, topics fit a string field |
| Decoders.DecodeMetadata | internal/kwire/metadata.go:58-133 | the cursor loops return what the reader says, or its error |
| Decoders.EncodeMetadata | internal/kwire/metadata.go:137-167 | the loops append the encoding |
| Decoders.DecodeCoordinator | internal/kwire/findcoord.go:44-115 | the cursor walk through either shape returns what the reader says, or its error |
| Decoders.EncodeCoordinator | internal/kwire/findcoord.go:117-148 | the loop over entries, or the single entry, appends the encoding |
| Decoders.DecodeSyncGroup | internal/kwire/syncgroup.go:38-144 | the cursor walk over sender and slots returns what the reader says, or its error |
| Decoders.EncodeSyncGroup | internal/kwire/syncgroup.go:146-196 | the loop over slots appends the encoding |
| Decoders.DecodeSubscription | internal/kwire/consumer_protocol.go:45-105 | the cursor walk returns what the reader says, or its error; fields that a shorter blob leaves out are absent |
| Decoders.DecodeAssignment | internal/kwire/consumer_protocol.go:147-177 | the cursor walk over the nested lists returns what the reader says, or its error |
| Decoders.EncodeAssignment | internal/kwire/consumer_protocol.go:179-233 | the nested loops append the encoding |
| Decoders.DecodeRequestHeader | internal/kwire/header.go:22-63 | the header and its size, or the error |
| Decoders.DecodeResponseHeader | internal/kwire/header.go:92-106 | the correlation id and the header size, or the error |
| Header.RequestHeaderTrip | internal/kwire/header.go:22-88 | request headers are read back, whatever follows |
| Header.ResponseHeaderTrip | internal/kwire/header.go:92-125 | response headers are read back, and peeking finds the same id |
| Header.RequestHeaderLocal | internal/kwire/header.go:22-63 | decoding looks at no byte behind the header, tagged fields included |
| Header.SpliceKeepsHeader | internal/proxy/conn.go:178-184 | any new payload behind the header bytes leaves header and header size as they were |
| Topology.Registry.Add | internal/topology/topology.go:67-110 | exactly when it succeeds, both tables in every case, and that the node id, and the address of nodes that no id decides, then resolve to the advertised endpoint |
| Topology.EntersThoughRefusedIff | internal/topology/topology.go:67-86 | a refused call changes the tables iff the address clashes and the node id is new, and then only the node table |
| Topology.RefusedYetSteered | internal/topology/topology.go:74-83 | a refused call after which its node is steered |
| Topology.NeverRemapped | internal/topology/topology.go:62-86 | no sequence of calls maps a node id or an address elsewhere |
| Topology.RewriteBrokers | internal/topology/rewriter.go:13-27 | in place: host and port of each broker become what a lookup returns, if anything, its id and rack stay; the rewritten are counted |
| Topology.MappedIs | internal/topology/rewriter.go:13-27 | the count is that of the brokers for which a lookup returns something |
| Topology.RewriteEntries | internal/topology/rewriter.go:48-58 | the same for coordinators with host and port; key, error and message stay, and the others stay whole |
| Topology.MappedEntriesIs | internal/topology/rewriter.go:48-58 | the count is that of the coordinators with host and port for which it does |
| Topology.ClientSeesSteeredMetadata | internal/interceptor/interceptor.go:97-111 | every body that decodes: its rewriting decodes, field by field, to the same response with host and port of each broker as a lookup returns them |
| Topology.ClientSeesSteeredCoordinator | internal/interceptor/interceptor.go:127-138 | the same for coordinators with host and port, in both shapes |
| Topology.FrameParts | internal/proxy/conn.go:251-253 | the reassembled frame has the id, and the payload behind its header |
| Frames.Reader.ReadFrame | internal/frame/reader.go:45-61 | the next frame or the right error; of a frame exactly the encoding is consumed |
| Frames.Writer.WriteFrame | internal/frame/writer.go:26-38 | the whole frame, a prefix of it when the connection breaks, nothing when the body is too long |
| Decoding.FrameLayout | internal/frame/writer.go:26-38 | a frame is the int32 length and the body |
| Frames.ParseIff | internal/frame/reader.go:45-61 | a frame comes back iff the stream goes on with the encoding of a frame within the limit |
| Frames.ParseErrors | internal/frame/reader.go:45-61 | which error comes when |
| Frames.SplitConcat | internal/frame/reader.go:45-61 | frames that were written are read back, whatever follows |
| Frames.SplitReads | internal/frame/reader.go:45-61 | what was read is, re-encoded, the start of the stream |
| Tracker.NewConfig | internal/proxy/correlation.go:65-85 | defaults, and a positive sweep interval of at most a second and a quarter of the age |
| Tracker.Correlation.Register | internal/proxy/correlation.go:91-108 | acceptance and new table as specified |
| Tracker.Correlation.Take | internal/proxy/correlation.go:111-120 | returns and removes the entry under the id |
| Tracker.Correlation.EvictExpired | internal/proxy/correlation.go:129-135 | drops exactly the expired entries, in any map order |
| Tracker.NeverTooLarge | internal/proxy/correlation.go:91-120 | in every history the size stays within the maximum |
| Tracker.YoungAfterRegister | internal/proxy/correlation.go:91-135 | after each registration every entry is younger than the age plus one sweep interval |
| Tracker.RefusedOnlyWhenFull | internal/proxy/correlation.go:91-108 | a fresh id is refused iff the maximal number of unexpired entries remains |
| Tracker.PendingIdRefused | internal/proxy/correlation.go:91-108 | an id that is pending and not expired is refused, and its entry stays |
| Tracker.RegisterEnters | internal/proxy/correlation.go:91-108 | an accepted entry is found under its id; no other unexpired entry changes |
| Tracker.DeliveredOnce | internal/proxy/correlation.go:91-120 | each accepted entry is delivered at most once, under its own id, after it was accepted |
| Connection.AlwaysInv | internal/proxy/conn.go:151-262 | the protocol invariant holds after every step of every interleaving |
| Connection.NoBypass | internal/proxy/conn.go:185-255 | a response taken in time to a request with a rewriting reaches the client only through that request's own rewriting; never through another's |
| Connection.Transparent | internal/proxy/conn.go:151-202 | frames go to the broker in order, as read or with the interceptor's payload behind the client's header; the broker decodes that header |
| Connection.PassThrough | internal/proxy/conn.go:151-242 | without interception both directions carry a prefix of the frames read |
| Sweeps.RawIffSwept | internal/proxy/conn.go:235-242 | a response comes raw iff its request wanted no rewriting or an earlier registration, with a sweep due, found its entry over age |
| Sweeps.EvictedIff | internal/proxy/correlation.go:91-135 | an entry counts as swept iff some registration found it over age with the table full or a sweep interval past |
| Sweeps.LateForcesRaw | internal/proxy/correlation.go:91-135 | a registration one sweep interval after a request in flight went over age (and was registered) forces its response raw |
| Sweeps.LateIsRaw | internal/proxy/correlation.go:95-99 | a run in which a late response that should be rewritten comes raw |
| Pumps.UpstreamRound | internal/proxy/conn.go:157-201 | one round: request, table, refusal and bytes written as in the protocol's steps |
| Pumps.DownstreamRound | internal/proxy/conn.go:227-260 | one round: entry taken, frame raw or rewritten, bytes written |
| Pumps.DeliveredIff | internal/proxy/conn.go:235-250 | a response comes as it is unless an entry asks for a rewriting, and is then dropped iff header or body does not decode |
| Pumps.UpstreamPump | internal/proxy/conn.go:142-203 | the loop relays frames in order; without interception the bytes written are a prefix of the bytes read |
| Pumps.DownstreamPump | internal/proxy/conn.go:215-262 | for any table, the loop delivers the frames in order, each as the entry it finds demands; with no entries the bytes written are a prefix of the bytes read |
| Pumps.UpstreamRoundSteps | internal/proxy/conn.go:157-201 | a round of the upstream pump is a read, a pause, a registration and a write of the interleaved protocol |
| Pumps.DownstreamRoundSteps | internal/proxy/conn.go:227-260 | a round of the downstream pump is a take and a delivery of the interleaved protocol |
| ClientView.MetadataSeen | internal/proxy/conn.go:243-257 | in every interleaving a Metadata response taken in time reaches the client with its id and decodes, field by field, to the broker's answer with host and port of each broker as a lookup returns them |
| ClientView.CoordinatorSeen | internal/proxy/conn.go:243-257 | the same for FindCoordinator |
| ClientView.BytesPassThrough | internal/frame/writer.go:26-38 | without interception, in every interleaving, the bytes written each way are a prefix of the bytes read |
| Subscriptions.DedupCopy | internal/subscription/store.go:173-187 | every topic once, in the order of first occurrences |
| Subscriptions.FirstOccurrencesUnique | internal/subscription/store.go:171-187 | only one sequence is that |
| Subscriptions.Store.Put | internal/subscription/store.go:63-92 | fails exactly for a new member at the cap; the flat map gains the record |
| Subscriptions.Store.RemoveMember | internal/subscription/store.go:135-154 | the flat map loses the entry, and the group goes with its last member |
| Subscriptions.Store.Get | internal/subscription/store.go:96-103 | the record under group and member, or none |
| Subscriptions.Store.Count | internal/subscription/store.go:157-169 | counting group by group is the size of the flat map |
| Subscriptions.StoreRefines | internal/subscription/store.go:63-169 | under every sequence of calls the two levels are the flat bounded map: within the cap, no empty group |
| Subscriptions.FlattenInjective | internal/subscription/store.go:36-37 | without empty groups the flat map determines the nested one |
| MetadataCache.BuildSnapshot | internal/metadata/cache.go:157-182 | no topic named "", none without partitions |
| MetadataCache.SnapshotIs | internal/metadata/cache.go:170-181 | each topic has the partitions of its last usable entry |
| MetadataCache.SnapshotCountable | internal/metadata/cache.go:157-182 | the snapshot of a response that came in a frame has int32 ids and lists that an int32 can count |
| MetadataCache.SingleFlight | internal/metadata/cache.go:96-122 | at most one fetch runs at a time, for any number of callers |
| MetadataCache.JoinersShare | internal/metadata/cache.go:98-107 | a joiner that does not cancel returns exactly what its leader's fetch returned |
| Freshness.PublishedIsLast | internal/metadata/cache.go:116-118 | in every state of every run, what is published is the result of the last successful fetch to be stored; failed fetches leave no trace |
| MetadataCache.ReturnedWasPublished | internal/metadata/cache.go:112-121 | a snapshot returned without error was published before |
| MetadataCache.NobodyStuck | internal/metadata/cache.go:96-122 | while a joiner waits, its leader has a next step or the joiner can return |
| MetadataCache.OlderMayWin | internal/metadata/cache.go:113-118 | a run in which an older result is stored after a newer one |
| Freshness.StaleIff | internal/metadata/cache.go:112-118 | a publication leaves the result of the latest-elected publisher in place iff no leader elected after its leader cleared the flight has published before |
| Freshness.AlwaysNewestIff | internal/metadata/cache.go:96-122 | the published snapshot is always that of the latest-elected leader to have published iff no publication was overtaken so |
| Freshness.ReplacesNewerIff | internal/metadata/cache.go:112-118 | a publication replaces a newer result iff the last one before it overtook it; while the newest is published, iff any did |
| Interceptor.OnRequest | internal/interceptor/interceptor.go:61-79 | which API keys get a rewriting or reach the store, and for SyncGroup exactly when the payload is replaced, and by a plan |
| Interceptor.OnJoinGroup | internal/interceptor/interceptor.go:143-181 | whatever subscription a member with an id announces on the wire is what the store then has under its group and member, unless the store is full; all other records stay |
| Interceptor.JoinRecords | internal/interceptor/interceptor.go:164-175 | the same as a law of the handler's functions: topics at first occurrence, owned partitions, generation |
| Interceptor.OnSyncGroup | internal/interceptor/interceptor.go:187-300 | exactly when a request is rewritten, and that the payload then carries a plan the planner may compute, slot by slot |
| Interceptor.EncodePlan | internal/interceptor/interceptor.go:313-321 | the blob lists every topic of the map once with its partitions, in any map order |
| Interceptor.CollectParts | internal/interceptor/interceptor.go:236-250 | the partitions of the known topics that a member subscribes to |
| PlanView.MembersAre | internal/interceptor/interceptor.go:209-228 | the planner is told of every slot with a record, in the order of the slots, with the record's topics and the telemetry's lag |
| PlanView.IndexedAre | internal/interceptor/interceptor.go:209-228 | the planner's index holds exactly those members, so described |
| PlanView.DueIff | internal/interceptor/interceptor.go:236-250 | the partitions to plan are those that the snapshot lists for a topic on record for one of the slots |
| PlanView.PlannableIff | internal/interceptor/interceptor.go:200-258 | a leader's request is planned iff such a partition exists |
| Interceptor.RewriteMetadataResponse | internal/interceptor/interceptor.go:97-111 | fails iff the body does not decode; otherwise the result decodes to the response with its brokers steered, field by field |
| Interceptor.RewriteCoordinatorResponse | internal/interceptor/interceptor.go:127-138 | the same for FindCoordinator |
| LeaderSync.BrokerDecodes | internal/proxy/conn.go:178-184 | the forwarded frame decodes to the leader's header and sender, the same members in order, and the new blobs, with nothing left over |
| LeaderSync.BlobDecodes | internal/interceptor/interceptor.go:278-291 | every blob decodes to that member's part of the plan |
| LeaderSync.Coverage | internal/interceptor/interceptor.go:207-300 | the blobs hold every partition that is due by snapshot and subscriptions, and nothing else; exactly once when member ids are distinct |
| LeaderSync.OnlySubscribed | internal/interceptor/interceptor.go:207-300 | what a member is sent are topics of its own subscription |
| LeaderSync.ExactlyOnceEndToEnd | internal/interceptor/interceptor.go:187-321 | as the broker decodes the request: header, sender and ids as sent, and every partition that is due by snapshot and subscriptions received exactly once |
| LeaderSync.ExactlyOnceOnConnection | internal/proxy/conn.go:151-202 | the same of the frame that a connection has forwarded, in every interleaving |
| LeaderSync.EveryMemberReceives | internal/interceptor/interceptor.go:187-321 | as the broker decodes it, with one topic to share and at least as many distinct partitions as members on record, each of them receives a partition |

## Left out

- Sockets, deadlines, dialing, accept backoff, signals, configuration and process wiring: I/O plumbing.
- Metrics and logging: side effects only.
- The planner's worker pool: a plan call is either the planner's result or a failure (`planner` false); panics and timeouts are failures.
- Telemetry and the broker client: lag, snapshots and fetch results are parameters.
- The JoinGroup, ListOffsets, OffsetFetch, DescribeGroups and SyncGroup response codecs: the same lemmas for easier shapes; `OnJoinGroup` takes the decoded request.
- Rendering a plan in sorted order (`ToAssignments`): not on the path to the broker.
- Parsing of topology flags and files, and the case and IPv6 rules of address keys: lookups go through a `key` function, and rewrites are stated by what a lookup returns.
- Buffer pooling and reuse: byte buffers are values, so aliasing between scratch buffers is not modelled.
- Presence flags of optional fields are folded into option types; a message that lacks a field of its own version is not in the domain of the round trips.
- ExactlyOnceEndToEnd: asks for distinct member ids (without them `Coverage` says at least once) and a payload whose length an int32 can hold, as the frame's length field must.
- MetadataSeen: asks that the hosts advertised for the brokers of the response fit its length field, which the encoder does not check.
- CoordinatorSeen: asks the same of the hosts advertised for its located coordinators.
- NoBypass: rests on distinct correlation ids in flight and a broker that echoes them and answers at most once; what a sweep does past the maximal age is in `RawIffSwept` and `LateForcesRaw`.
- Deterministic: distinct member ids; `DeterministicIff` also asks that no member lists a topic twice (the store removes such repeats).
- DownstreamPump: the loop runs alone, so its table changes only by itself; interleaved registrations are in module Connection.
- StarvesIff: its condition is on the run, because earlier steals change the loads that later scans see; on the inputs, `SoleTopicServedIff` covers subscribers with one topic and `FirstHungryServedIff` the first hungry member.
- SoleTopicServedIff: for a topic named "" it asks that there be no tombstone clash; `EnoughServes` needs no such thing, and `TooFewServe` shows why the converse does.
