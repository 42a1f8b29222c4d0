# gonfluent: replica planner and API-version intersection

gonfluent is a Go client for a Kafka cluster. It reaches the cluster through a REST API and through the sarama client library. This project models the two parts of it that compute something, and proves properties of the model.

**The replica-reassignment planner** (topics.go) changes a topic's replication factor.
- For one partition, `buildNewReplicas` yields the new broker list:
  - a zero delta keeps the list as it is;
  - a negative delta keeps a prefix;
  - a positive delta appends brokers picked at random from the unused part of the pool, by swap-remove sampling.
- `buildAssignment` does this for every partition, in the array slot of the partition's id.
- `UpdateReplicationsFactor` submits the plan.
- `IsReplicationFactorUpdating` asks whether a reassignment is still adding or removing replicas.

**The cluster API-version intersection** (kafka.go):
- `updateClusterApiVersions` narrows a map from API key to a `[min, max]` version interval by one broker's answer;
- `populateAPIVersions` folds all brokers' answers and keeps the keys whose interval is non-empty;
- `extractTopics` records the topic names.

Files:
- `common.dfy`: `Option` and `Result`.
- `sequences.dfy`: filtering a sequence by a set (`Excluding`), distinctness, and the multiset facts used by the sampling loop.
- `topics.dfy`: the planner, as imperative methods proved against the ghost predicates `ValidReplicaPlan` and `IsAssignment`.
- `kafka.dfy`: the intersection. `IsIntersection` characterises the result as, per key, the largest minimum and the smallest maximum on offer. The `SaramaClient` class holds the two fields the client updates.
- `scenarios.dfy`: the cases of topics_test.go, stated against the model.

How the model represents the source:
- The sarama client and admin calls are parameters, not modelled code:
  - the `RefreshMetadata` error;
  - the partition list;
  - the broker ids;
  - the replica lookup per partition;
  - `ListPartitionReassignments`;
  - `AlterPartitionReassignments`.
- `rand.Intn` is a nondeterministic choice (`:|`) of any index in range. The properties of the grow path therefore hold for every sequence of draws.
- Replica counts and replication factors are Go `int16` values. Their conversions and subtraction wrap around explicitly (`Wrap16`).
- The broker answers of `populateAPIVersions` come in over channels. The model folds them as a sequence in arrival order. `ArrivalOrderIrrelevant` shows that the cluster map, and so supportedAPIs, does not depend on that order; the collected errors keep arrival order.

The grow guard compares the pool size minus the replica count with the delta, not the size of the unused part (topics.go:289-292). topics_test.go:231-234 expects `not enough brokers` although all four pool brokers are unused. `PlanError` states the count comparison. `ExtraCountBound` and `ExcludingAtLeast` show why the comparison is safe: `rand.Intn` is never called on an empty unused slice.

## Model

| member | source | states |
|---|---|---|
| Topics.Wrap16 | topics.go:289 | int16 arithmetic leaves every value in the int16 range unchanged |
| Topics.WrapSub | topics.go:289 | converting both operands to int16 and subtracting in int16 gives the int16 value of the true difference |
| Topics.ExtraCount | topics.go:289 | extraCount is the int16 value of the pool size minus the replica count |
| Topics.PlanError | topics.go:280-292 | `dropping too many replicas` exactly when delta < 0 and fewer than one replica would remain; `not enough brokers` exactly when delta > 0 and extraCount < delta; no other error |
| Topics.ExtraCountExact | topics.go:289 | for a pool and a replica list of int16 size, extraCount is the pool size minus the replica count |
| Topics.ExtraCountBound | topics.go:289-290 | extraCount never exceeds the pool size minus the replica count, so the grow check passes only when enough brokers exist to fill the unused pool |
| Topics.BuildNewReplicas | topics.go:275-305 | the result is one of the allowed plans: the list unchanged for delta 0; `dropping too many replicas` when fewer than one replica would remain, else the first len(used)+delta replicas; `not enough brokers` when extraCount < delta, else used followed by delta distinct pool brokers not in used |
| Topics.AppendRandomUnused | topics.go:294-303 | the swap-remove loop appends exactly count brokers after the untouched prefix. Invariant: the remaining unused brokers and the picks together form a permutation of the original unused list |
| Topics.FindUnusedReplicas | topics.go:307-321 | the result is the pool filtered to the brokers that do not occur in used, in pool order |
| Topics.AllReplicas | topics.go:226-239 | the result is the broker ids in broker order with every -1 removed; a broker is in it iff it is listed and is not -1 |
| Topics.GrowthFromPicks | topics.go:294-303 | delta picks taken without replacement from the unused pool give a valid growth plan: distinct, in the pool, not already used |
| Topics.PlanLength | topics.go:278-303 | a successful plan has len(used)+delta replicas; a shrinking plan keeps at least one replica and drops at least one |
| Topics.PlanKeepsReplicaSet | topics.go:278-303 | a plan over a duplicate-free replica list is duplicate-free; if used lies in the pool, so does the plan; a growing or unchanged plan starts with used; a shrinking plan holds only brokers of used |
| Topics.PlanDeterminedWithoutGrowth | topics.go:278-287 | with a delta <= 0 the outcome (list or error) is determined by the inputs |
| Topics.Delta | topics.go:258-259 | deltaRF is the int16 value of the target factor minus the replica count, and exactly that difference for a non-negative target and an int16 count |
| Topics.Completed | topics.go:252-263 | the number of partitions planned before the first one whose lookup or plan fails: every earlier one succeeds and the one at that index fails |
| Topics.AssignmentStep | topics.go:260-265 | writing partition p's plan into slot p extends the assignment by that partition |
| Topics.PlannedEntryLength | topics.go:258-265 | a partition planned for a non-negative target factor gets exactly that many replicas |
| Topics.CompleteAssignmentHasTargetFactor | topics.go:251-268 | when every partition is planned, every partition's slot holds newRF replicas |
| Topics.BuildAssignment | topics.go:241-269 | a failed partition lookup gives no slice and that error. Otherwise a new array of one slot per partition is returned; each slot holds a valid plan for its partition if that partition was reached before the first failure, and is nil if not. The returned error is the first failing partition's error, or none |
| Topics.UpdateReplicationsFactor | topics.go:191-200 | the refresh error, a partition-lookup error or the first partition failure is returned and nothing is submitted; otherwise the complete assignment is submitted and the submission's answer returned |
| Topics.IsPartitionRFChanging | topics.go:271-273 | a partition is changing iff some broker is being added to it or removed from it |
| Topics.TopicStatuses | topics.go:217 | `statusMap[topic]`: the statuses listed under the topic, and none for a topic the map does not hold (Go's read of a missing key) |
| Topics.IsReplicationFactorUpdating | topics.go:202-224 | refresh, partition and listing errors are returned with false; otherwise the result is true iff some partition status of the topic is changing, and false for a topic the listing does not mention |
| Sequences.ExcludingMembers | topics.go:313-319 | a broker is in the filtered list iff it is in the input and not in the dropped set |
| Sequences.ExcludingDistinct | topics.go:230-236 | filtering a list whose remaining elements are distinct gives a duplicate-free list |
| Sequences.ExcludingAtLeast | topics.go:289-297 | the unused pool holds at least as many brokers as the pool size minus the replica count |
| Sequences.SwapRemoveMultiset | topics.go:299-300 | overwriting slot j with the last element and truncating removes exactly one copy of the element at j |
| Kafka.IntersectionUnique | kafka.go:57-66 | two maps that are both the intersection of the same start map and the same set of blocks are equal |
| Kafka.IntersectionCompose | kafka.go:59-66 | narrowing by one set of blocks and then by another is narrowing by their union |
| Kafka.Narrowed | kafka.go:93-111 | a new key takes the broker's interval; a known key gets the larger of the minima and the smaller of the maxima |
| Kafka.NarrowOne | kafka.go:93-111 | recording one block's narrowed interval is exactly the intersection with that block |
| Kafka.SingleBlockNarrowing | kafka.go:93-111 | the intersection with one block inserts or narrows that block's key and leaves every other key unchanged |
| Kafka.IntersectionOnlyNarrows | kafka.go:85-114 | no key is removed, no interval widens, and a key no block mentions keeps its interval |
| Kafka.UpdateClusterApiVersions | kafka.go:85-114 | the updated map is the intersection of the old map with all the broker's blocks |
| Kafka.Failures | kafka.go:58-64 | the collected errors: one per failed reply, so at most one per broker, and an error is among them iff some broker reported it |
| Kafka.NoFailuresIffAllAnswered | kafka.go:59-68 | no error is collected iff every broker sent its versions |
| Kafka.ReceiveReply | kafka.go:60-65 | one receive: a broker's blocks extend the intersection by those blocks, its error is appended to the errors |
| Kafka.CollectApiVersions | kafka.go:57-66 | after all replies, the cluster map is, per key, the largest minimum and smallest maximum over all reported blocks with that key; the errors are the failures in arrival order |
| Kafka.ArrivalOrderIrrelevant | kafka.go:53-66 | replies in any arrival order give the same cluster map |
| Kafka.SupportedApis | kafka.go:72-80 | a key is supported iff its interval has max >= min, and it maps to that max |
| Kafka.SaramaClient.PopulateAPIVersions | kafka.go:47-83 | any broker error gives back all errors and leaves supportedAPIs as it was; otherwise supportedAPIs is computed from the intersection of all answers |
| Kafka.SaramaClient.ExtractTopics | kafka.go:35-45 | on success topics is exactly the set of listed names; on error it is unchanged |
| TopicsScenarios.KeepReplicas | topics_test.go:211-214 | delta 0 on [5,6,7] gives [5,6,7] |
| TopicsScenarios.DropTooMany | topics_test.go:216-219 | delta -4 on three replicas gives `dropping too many replicas` |
| TopicsScenarios.DropOne | topics_test.go:221-224 | delta -1 on [5,6,7] gives [5,6] |
| TopicsScenarios.AddOne | topics_test.go:226-229 | delta 1 gives [5,6,7] followed by one broker of the pool {1,2,3,4} |
| TopicsScenarios.AddTwo | topics_test.go:231-235 | delta 2 with a pool of four and three replicas gives `not enough brokers` |
| TopicsScenarios.PartitionRFChangingCases | topics_test.go:193-206 | empty adding and removing lists mean not changing; a non-empty one means changing |

## Left out

- REST create, get, list and delete of topics, and `DoRequest` error shaping: HTTP and JSON pass-through, with no logic of the planner in them.
- `UpdatePartitions`: a single broker protocol call.
- The other REST files, the HTTP client, the sarama wrappers (kafka_client.go) and helper.go: I/O, TLS and configuration building.
- The goroutines and channels of `populateAPIVersions`, and `apiVersionsFromBroker` / `rawApiVersionsRequest`. These are concurrency and network I/O; each broker's outcome is a `BrokerReply` (its blocks, or its error).
- The joined error text of `populateAPIVersions` (sarama's MultiError formatting): the model returns the list of errors.
- `rand.Seed` (a clock read) and the `fmt.Println` in `allReplicas`: output and seeding only.
- Go slice aliasing. `buildNewReplicas` returns the caller's own slice for delta 0, and a slice sharing its backing array for delta < 0. The grow path appends to a slice headed by it, and swap-removes in place in the unused slice. The model works on values, so sharing of backing arrays is not captured.
- `clusterApiVersions` is passed to `updateClusterApiVersions` by pointer and mutated in place. The model takes the map in and returns the new one.
- Topics.BuildNewReplicas: requires a duplicate-free pool (the planner assumes one). It also requires at most 32767 current replicas: past that, the int16 count wraps, the Go code can reach `rand.Intn(0)` on an empty unused slice (topics.go:297), and `rand.Intn` panics.
- Topics.BuildAssignment: requires partition ids in 0..n-1, because the Go code indexes the array by id and panics otherwise. It also requires replica lists of int16 length, and `-1` to be the only broker id that repeats in the metadata.
- Topics.FindUnusedReplicas: the capacity argument only presizes the slice and has no effect on the result.
- Topics.ExtraCountBound: states only the bound that makes the grow check safe, not the exact value, when the pool has more than 32767 brokers.
- TopicsScenarios.AddOne: states membership in the pool, not the single broker that one particular random draw picked in topics_test.go:229.
- The test mocks and example/main.go.
