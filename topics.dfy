/**
 * The replica-reassignment planner of the client (topics.go): the new broker list of one
 * partition when its replication factor changes, the plan for a whole topic, its submission,
 * and the check whether a submitted reassignment is still in flight.
 *
 * The cluster client and the cluster admin are not modelled; what the planner asks of them
 * arrives as parameters: the result of a metadata refresh, the partition list, the broker ids,
 * a replica lookup per partition, the reassignment listing and the submission.
 */
module Topics {
  import opened Common
  import opened Sequences

  /** The id the client library reports for a broker it cannot identify. */
  const NoBroker: int := -1

  const MinInt16: int := -32768
  const MaxInt16: int := 32767

  /** Go's int16: replication factors and replica counts in the planner are int16 values. */
  type Int16 = x: int | -32768 <= x <= 32767

  /** A conversion to int16, or the result of int16 arithmetic: two's-complement wrap-around. */
  function Wrap16(x: int): (r: Int16)
    ensures MinInt16 <= x <= MaxInt16 ==> r == x
  {
    (x + 32768) % 65536 - 32768
  }

  datatype Error =
    | DroppingTooManyReplicas      // "dropping too many replicas"
    | NotEnoughBrokers             // "not enough brokers"
    | Collaborator(reason: string) // an error handed back by the cluster client or admin

  // ---------------------------------------------------------------------------------------
  // What buildNewReplicas may return
  // ---------------------------------------------------------------------------------------

  /** Shifting by a multiple of 2^16 does not change the int16 value. */
  lemma WrapShift(x: int, k: int)
    ensures Wrap16(x + 65536 * k) == Wrap16(x)
  {
    assert (x + 65536 * k + 32768) % 65536 == (x + 32768) % 65536;
  }

  /** Converting both operands to int16 and subtracting in int16 is the int16 value of the difference. */
  lemma WrapSub(a: int, b: int)
    ensures Wrap16(Wrap16(a) - Wrap16(b)) == Wrap16(a - b)
  {
    var qa := (a + 32768) / 65536;
    var qb := (b + 32768) / 65536;
    assert Wrap16(a) == a - 65536 * qa;
    assert Wrap16(b) == b - 65536 * qb;
    WrapShift(a - b, qb - qa);
  }

  /** `extraCount`: int16(len(all)) - int16(len(used)), the int16 value of the pool size minus the replica count. */
  function ExtraCount(all: seq<int>, used: seq<int>): (extra: Int16)
    ensures extra == Wrap16(|all| - |used|)
  {
    WrapSub(|all|, |used|);
    Wrap16(Wrap16(|all|) - Wrap16(|used|))
  }

  /** The error, if any, that buildNewReplicas returns; the grow check compares counts only. */
  function PlanError(all: seq<int>, used: seq<int>, delta: Int16): (e: Option<Error>)
    ensures e == Some(DroppingTooManyReplicas) <==> delta < 0 && |used| + delta < 1
    ensures e == Some(NotEnoughBrokers) <==> delta > 0 && ExtraCount(all, used) < delta
    ensures e.Some? ==> e == Some(DroppingTooManyReplicas) || e == Some(NotEnoughBrokers)
  {
    if delta < 0 && |used| + delta < 1 then Some(DroppingTooManyReplicas)
    else if delta > 0 && ExtraCount(all, used) < delta then Some(NotEnoughBrokers)
    else None
  }

  /** `grown` is `used` followed by `delta` distinct brokers of the pool that `used` does not hold. */
  ghost predicate IsGrowth(all: seq<int>, used: seq<int>, delta: int, grown: seq<int>) {
    && delta >= 0
    && |grown| == |used| + delta
    && grown[..|used|] == used
    && NoDuplicates(grown[|used|..])
    && forall b :: b in grown[|used|..] ==> b in all && b !in used
  }

  /**
   * The outcomes buildNewReplicas allows: the unchanged list for a zero delta, the leading
   * |used| + delta replicas for a negative one, and for a positive one `used` extended by
   * brokers picked at random; the two errors when their guards fire.
   */
  ghost predicate ValidReplicaPlan(all: seq<int>, used: seq<int>, delta: Int16, r: Result<seq<int>, Error>) {
    match PlanError(all, used, delta)
    case Some(e) => r == Err(e)
    case None =>
      && r.Ok?
      && (if delta == 0 then r.value == used
          else if delta < 0 then r.value == used[..|used| + delta]
          else IsGrowth(all, used, delta, r.value))
  }

  lemma ExtraCountExact(all: seq<int>, used: seq<int>)
    requires |all| <= MaxInt16 && |used| <= MaxInt16
    ensures ExtraCount(all, used) == |all| - |used|
  {
  }

  /** Even when len(all) wraps around, extraCount never exceeds the true difference. */
  lemma ExtraCountBound(all: seq<int>, used: seq<int>)
    requires |used| <= MaxInt16
    ensures ExtraCount(all, used) <= |all| - |used|
  {
    var d := |all| - |used|;
    if d > MaxInt16 {
      assert Wrap16(d) <= MaxInt16;
    }
  }

  /** Every successful plan has |used| + delta replicas, and a shrink keeps at least one. */
  lemma PlanLength(all: seq<int>, used: seq<int>, delta: Int16, planned: seq<int>)
    requires ValidReplicaPlan(all, used, delta, Ok(planned))
    ensures |planned| == |used| + delta
    ensures delta < 0 ==> 1 <= |planned| < |used|
  {
  }

  /** A plan of a duplicate-free replica set drawn from the pool is again one. */
  lemma PlanKeepsReplicaSet(all: seq<int>, used: seq<int>, delta: Int16, planned: seq<int>)
    requires ValidReplicaPlan(all, used, delta, Ok(planned))
    requires NoDuplicates(used)
    ensures NoDuplicates(planned)
    ensures (forall b :: b in used ==> b in all) ==> forall b :: b in planned ==> b in all
    ensures delta >= 0 ==> planned[..|used|] == used
    ensures delta < 0 ==> forall b :: b in planned ==> b in used
  {
    if delta > 0 {
      var picks := planned[|used|..];
      assert planned == used + picks;
      forall i, j | 0 <= i < j < |planned| ensures planned[i] != planned[j] {
        if j >= |used| {
          assert planned[j] == picks[j - |used|] && picks[j - |used|] in picks;
          if i >= |used| {
            assert planned[i] == picks[i - |used|];
          } else {
            assert planned[i] == used[i] && used[i] in used;
          }
        }
      }
      assert forall b :: b in planned ==> b in used || b in picks;
    } else if delta < 0 {
      assert forall b :: b in planned ==> b in used;
    }
  }

  /** Without growth the plan is determined by its inputs: planning twice yields the same list. */
  lemma PlanDeterminedWithoutGrowth(all: seq<int>, used: seq<int>, delta: Int16, r1: Result<seq<int>, Error>, r2: Result<seq<int>, Error>)
    requires delta <= 0
    requires ValidReplicaPlan(all, used, delta, r1) && ValidReplicaPlan(all, used, delta, r2)
    ensures r1 == r2
  {
  }

  /**
   * The swap-remove loop's outcome is a valid plan: `delta` brokers drawn without repetition
   * from the unused ones, appended to `used`.
   */
  lemma GrowthFromPicks(all: seq<int>, used: seq<int>, delta: Int16, unused0: seq<int>, picks: seq<int>)
    requires NoDuplicates(all)
    requires 0 < delta <= ExtraCount(all, used)
    requires unused0 == Excluding(all, Elements(used))
    requires |picks| == delta
    requires multiset(picks) <= multiset(unused0)
    ensures ValidReplicaPlan(all, used, delta, Ok(used + picks))
  {
    assert (used + picks)[..|used|] == used && (used + picks)[|used|..] == picks;
    ExcludingDistinct(all, Elements(used));
    SubMultisetDistinct(picks, unused0);
    ExcludingMembers(all, Elements(used));
    forall b | b in picks ensures b in all && b !in used {
      assert b in multiset(unused0);
    }
  }

  // ---------------------------------------------------------------------------------------
  // The planner's methods
  // ---------------------------------------------------------------------------------------

  /** allReplicas: the broker ids in broker order, without the NoBroker placeholder. */
  method AllReplicas(brokerIds: seq<int>) returns (replicas: seq<int>)
    ensures replicas == Excluding(brokerIds, {NoBroker})
    ensures forall b :: b in replicas <==> b in brokerIds && b != NoBroker
  {
    replicas := [];
    for i := 0 to |brokerIds|
      invariant replicas == Excluding(brokerIds[..i], {NoBroker})
    {
      assert brokerIds[..i + 1][..i] == brokerIds[..i];
      var id := brokerIds[i];
      if id != NoBroker {
        replicas := replicas + [id];
      }
    }
    assert brokerIds[..|brokerIds|] == brokerIds;
    ExcludingMembers(brokerIds, {NoBroker});
  }

  /**
   * findUnusedReplicas: the brokers of `all` that `used` does not hold, in the order of `all`.
   * `extraCount` is only the capacity Go reserves for the result; Go's make panics if it is negative.
   */
  method FindUnusedReplicas(all: seq<int>, used: seq<int>, extraCount: Int16) returns (unused: seq<int>)
    requires extraCount >= 0
    ensures unused == Excluding(all, Elements(used))
  {
    var usedMap: map<int, bool> := map[];
    for i := 0 to |used|
      invariant usedMap.Keys == Elements(used[..i])
    {
      assert Elements(used[..i + 1]) == Elements(used[..i]) + {used[i]} by {
        assert used[..i + 1] == used[..i] + [used[i]];
      }
      usedMap := usedMap[used[i] := true];
    }
    assert used[..|used|] == used;
    unused := [];
    for i := 0 to |all|
      invariant unused == Excluding(all[..i], usedMap.Keys)
    {
      assert all[..i + 1][..i] == all[..i];
      var r := all[i];
      if r !in usedMap {
        unused := unused + [r];
      }
    }
    assert all[..|all|] == all;
  }

  /**
   * The sampling loop of buildNewReplicas: `count` times, append `unused[j]` for a random index j
   * (`rand.Intn`), then swap-remove position j. What is appended is drawn from `unused` without
   * repetition: the brokers left over and the brokers picked always make up `unused` exactly.
   */
  method AppendRandomUnused(replicas: seq<int>, unused: seq<int>, count: Int16) returns (extended: seq<int>)
    requires 0 <= count <= |unused|
    ensures |extended| == |replicas| + count
    ensures extended[..|replicas|] == replicas
    ensures multiset(extended[|replicas|..]) <= multiset(unused)
  {
    var remaining := unused;
    extended := replicas;
    ghost var picks: seq<int> := [];
    var i: Int16 := 0;
    while i < count
      invariant 0 <= i <= count
      invariant |remaining| + i == |unused|
      invariant |picks| == i
      invariant extended == replicas + picks
      invariant multiset(remaining) + multiset(picks) == multiset(unused)
    {
      var j :| 0 <= j < |remaining|;
      extended := extended + [remaining[j]];
      picks := picks + [remaining[j]];
      SwapRemoveMultiset(remaining, j);
      remaining := remaining[j := remaining[|remaining| - 1]];
      remaining := remaining[..|remaining| - 1];
      i := i + 1;
    }
    assert extended[|replicas|..] == picks;
  }

  /**
   * buildNewReplicas: the new replica list of one partition for a change of `delta` replicas.
   * `rand.Intn` is any index into the remaining unused brokers. The pool must be duplicate-free
   * and the replica count must fit int16: otherwise the Go code can call rand.Intn(0) and panic.
   */
  method BuildNewReplicas(all: seq<int>, used: seq<int>, delta: Int16) returns (r: Result<seq<int>, Error>)
    requires NoDuplicates(all)
    requires |used| <= MaxInt16
    ensures ValidReplicaPlan(all, used, delta, r)
  {
    var usedCount := Wrap16(|used|);
    if delta == 0 {
      return Ok(used);
    } else if delta < 0 {
      var end := Wrap16(usedCount + delta);
      if end < 1 {
        return Err(DroppingTooManyReplicas);
      }
      return Ok(used[..end]);
    } else {
      var extraCount := Wrap16(Wrap16(|all|) - usedCount);
      if extraCount < delta {
        return Err(NotEnoughBrokers);
      }
      var unused := FindUnusedReplicas(all, used, extraCount);
      assert |unused| >= delta by {
        ExtraCountBound(all, used);
        ExcludingAtLeast(all, used);
      }
      var newReplicas := AppendRandomUnused(used, unused, delta);
      GrowthFromPicks(all, used, delta, unused, newReplicas[|used|..]);
      assert newReplicas == used + newReplicas[|used|..];
      return Ok(newReplicas);
    }
  }

  // ---------------------------------------------------------------------------------------
  // buildAssignment: one plan per partition of a topic
  // ---------------------------------------------------------------------------------------

  /** deltaRF of a partition: the target factor minus its current replica count, in int16. */
  function Delta(newRF: Int16, current: seq<int>): (delta: Int16)
    ensures delta == Wrap16(newRF - |current|)
    ensures |current| <= MaxInt16 && newRF >= 0 ==> delta == newRF - |current|
  {
    WrapSub(newRF, |current|);
    Wrap16(newRF - Wrap16(|current|))
  }

  /** Go indexes `assignment[p]` by partition id, so every id has to lie in 0..n-1. */
  predicate PartitionIdsInRange(ps: seq<int>) {
    forall p :: p in ps ==> 0 <= p < |ps|
  }

  /** Every replica list the lookup returns for these partitions has an int16 length. */
  predicate ReplicaCountsFit(ps: seq<int>, replicas: int -> Result<seq<int>, Error>) {
    forall p :: p in ps && replicas(p).Ok? ==> |replicas(p).value| <= MaxInt16
  }

  /** Why partition p cannot be planned: its replica lookup failed, or buildNewReplicas would fail. */
  function PartitionError(pool: seq<int>, replicas: int -> Result<seq<int>, Error>, newRF: Int16, p: int): Option<Error> {
    match replicas(p)
    case Err(e) => Some(e)
    case Ok(current) => PlanError(pool, current, Delta(newRF, current))
  }

  /** How many partitions, from the front of `ps`, are planned before the first one that fails. */
  function Completed(pool: seq<int>, replicas: int -> Result<seq<int>, Error>, newRF: Int16, ps: seq<int>): (n: nat)
    ensures n <= |ps|
    ensures forall k :: 0 <= k < n ==> PartitionError(pool, replicas, newRF, ps[k]).None?
    ensures n < |ps| ==> PartitionError(pool, replicas, newRF, ps[n]).Some?
  {
    if ps == [] then 0
    else if PartitionError(pool, replicas, newRF, ps[0]).Some? then 0
    else 1 + Completed(pool, replicas, newRF, ps[1..])
  }

  /** `entry` is a valid new replica list for a partition whose lookup returned `current`. */
  ghost predicate PlannedEntry(pool: seq<int>, current: Result<seq<int>, Error>, newRF: Int16, entry: seq<int>) {
    current.Ok? && ValidReplicaPlan(pool, current.value, Delta(newRF, current.value), Ok(entry))
  }

  /**
   * The assignment slice after the first `done` partitions of `ps` were planned: one slot per
   * partition; a slot whose id was planned holds its plan, every other slot is still nil.
   */
  ghost predicate IsAssignment(pool: seq<int>, replicas: int -> Result<seq<int>, Error>, newRF: Int16, ps: seq<int>, done: nat, plan: seq<seq<int>>)
    requires done <= |ps|
  {
    && |plan| == |ps|
    && forall q {:trigger plan[q]} :: 0 <= q < |plan| ==>
         if q in ps[..done] then PlannedEntry(pool, replicas(q), newRF, plan[q]) else plan[q] == []
  }

  /** Planning partition ps[i] into its slot extends the planned prefix by one. */
  lemma AssignmentStep(pool: seq<int>, replicas: int -> Result<seq<int>, Error>, newRF: Int16, ps: seq<int>, i: nat,
                       plan: seq<seq<int>>, entry: seq<int>)
    requires i < |ps| && 0 <= ps[i] < |plan|
    requires IsAssignment(pool, replicas, newRF, ps, i, plan)
    requires PlannedEntry(pool, replicas(ps[i]), newRF, entry)
    ensures IsAssignment(pool, replicas, newRF, ps, i + 1, plan[ps[i] := entry])
  {
    assert ps[..i + 1] == ps[..i] + [ps[i]];
  }

  /** A planned partition gets exactly the target factor (for a non-negative target). */
  lemma PlannedEntryLength(pool: seq<int>, current: Result<seq<int>, Error>, newRF: Int16, entry: seq<int>)
    requires PlannedEntry(pool, current, newRF, entry)
    requires |current.value| <= MaxInt16
    requires newRF >= 0
    ensures |entry| == newRF
  {
    PlanLength(pool, current.value, Delta(newRF, current.value), entry);
  }

  /** On success every partition of the topic holds a replica list of the target factor. */
  lemma CompleteAssignmentHasTargetFactor(pool: seq<int>, replicas: int -> Result<seq<int>, Error>, newRF: Int16, ps: seq<int>, plan: seq<seq<int>>)
    requires IsAssignment(pool, replicas, newRF, ps, |ps|, plan)
    requires ReplicaCountsFit(ps, replicas)
    requires PartitionIdsInRange(ps)
    requires newRF >= 0
    ensures forall p :: p in ps ==> |plan[p]| == newRF
  {
    forall p | p in ps ensures |plan[p]| == newRF {
      assert ps[..|ps|] == ps;
      PlannedEntryLength(pool, replicas(p), newRF, plan[p]);
    }
  }

  /**
   * buildAssignment: plans every partition of the topic, in the order the client lists them,
   * into a slice indexed by partition id. The first failure ends the loop and is returned along
   * with the slice planned so far; a failed partition lookup returns no slice (nil).
   */
  method BuildAssignment(partitions: Result<seq<int>, Error>, brokerIds: seq<int>,
                         replicas: int -> Result<seq<int>, Error>, newRF: Int16)
    returns (assignment: array?<seq<int>>, err: Option<Error>)
    requires NoDuplicatesOutside(brokerIds, {NoBroker})
    requires partitions.Ok? ==> PartitionIdsInRange(partitions.value)
    requires partitions.Ok? ==> ReplicaCountsFit(partitions.value, replicas)
    ensures partitions.Err? ==> assignment == null && err == Some(partitions.error)
    ensures partitions.Ok? ==> assignment != null && fresh(assignment)
    ensures partitions.Ok? && assignment != null ==>
      var ps, pool := partitions.value, Excluding(brokerIds, {NoBroker});
      var n := Completed(pool, replicas, newRF, ps);
      && err == (if n < |ps| then PartitionError(pool, replicas, newRF, ps[n]) else None)
      && IsAssignment(pool, replicas, newRF, ps, n, assignment[..])
  {
    if partitions.Err? {
      return null, Some(partitions.error);
    }
    var ps := partitions.value;
    var pool := AllReplicas(brokerIds);
    ExcludingDistinct(brokerIds, {NoBroker});
    assignment := new seq<int>[|ps|](_ => []);
    var i := 0;
    while i < |ps|
      invariant i <= Completed(pool, replicas, newRF, ps)
      invariant IsAssignment(pool, replicas, newRF, ps, i, assignment[..])
    {
      var p := ps[i];
      assert p in ps;
      var oldReplicas := replicas(p);
      if oldReplicas.Err? {
        return assignment, Some(oldReplicas.error);
      }
      var deltaRF := Wrap16(newRF - Wrap16(|oldReplicas.value|));
      var newReplicas := BuildNewReplicas(pool, oldReplicas.value, deltaRF);
      if newReplicas.Err? {
        return assignment, Some(newReplicas.error);
      }
      ghost var before := assignment[..];
      assignment[p] := newReplicas.value;
      assert assignment[..] == before[p := newReplicas.value];
      AssignmentStep(pool, replicas, newRF, ps, i, before, newReplicas.value);
      i := i + 1;
    }
    return assignment, None;
  }

  /**
   * UpdateReplicationsFactor: refresh the metadata, build the assignment and hand it to
   * AlterPartitionReassignments (`alter`), whose answer is returned. `submitted` is the plan
   * that was handed over, if any.
   */
  method UpdateReplicationsFactor(refreshErr: Option<Error>, partitions: Result<seq<int>, Error>, brokerIds: seq<int>,
                                  replicas: int -> Result<seq<int>, Error>, replicationFactor: Int16,
                                  alter: seq<seq<int>> -> Option<Error>)
    returns (submitted: Option<seq<seq<int>>>, err: Option<Error>)
    requires NoDuplicatesOutside(brokerIds, {NoBroker})
    requires partitions.Ok? ==> PartitionIdsInRange(partitions.value)
    requires partitions.Ok? ==> ReplicaCountsFit(partitions.value, replicas)
    ensures refreshErr.Some? ==> submitted == None && err == refreshErr
    ensures refreshErr.None? && partitions.Err? ==> submitted == None && err == Some(partitions.error)
    ensures refreshErr.None? && partitions.Ok? ==>
      var ps, pool := partitions.value, Excluding(brokerIds, {NoBroker});
      var n := Completed(pool, replicas, replicationFactor, ps);
      && (n < |ps| ==> submitted == None && err == PartitionError(pool, replicas, replicationFactor, ps[n]))
      && (n == |ps| ==> submitted.Some? && err == alter(submitted.value)
                        && IsAssignment(pool, replicas, replicationFactor, ps, |ps|, submitted.value))
  {
    if refreshErr.Some? {
      return None, refreshErr;
    }
    var assignment, e := BuildAssignment(partitions, brokerIds, replicas, replicationFactor);
    if e.Some? {
      return None, e;
    }
    var plan := assignment[..];
    return Some(plan), alter(plan);
  }

  // ---------------------------------------------------------------------------------------
  // IsReplicationFactorUpdating
  // ---------------------------------------------------------------------------------------

  /** sarama's PartitionReplicaReassignmentsStatus. */
  datatype ReassignmentStatus = ReassignmentStatus(replicas: seq<int>, addingReplicas: seq<int>, removingReplicas: seq<int>)

  /** What ListPartitionReassignments returns: topic, then partition id, to its status. */
  type StatusMap = map<string, map<int, ReassignmentStatus>>

  /** isPartitionRFChanging: some broker is still being added to or removed from the partition. */
  function IsPartitionRFChanging(status: ReassignmentStatus): (changing: bool)
    ensures changing <==> Elements(status.addingReplicas) + Elements(status.removingReplicas) != {}
  {
    assert |status.addingReplicas| != 0 ==> status.addingReplicas[0] in Elements(status.addingReplicas);
    assert |status.removingReplicas| != 0 ==> status.removingReplicas[0] in Elements(status.removingReplicas);
    |status.addingReplicas| != 0 || |status.removingReplicas| != 0
  }

  /** `statusMap[topic]` in Go: a missing topic reads as an empty map. */
  function TopicStatuses(statusMap: StatusMap, topic: string): (statuses: map<int, ReassignmentStatus>)
    ensures statuses.Keys == (if topic in statusMap then statusMap[topic].Keys else {})
    ensures forall p :: p in statuses ==> statuses[p] == statusMap[topic][p]
  {
    if topic in statusMap then statusMap[topic] else map[]
  }

  /**
   * IsReplicationFactorUpdating: after a refresh and the partition lookup, asks for the
   * reassignments of the topic's partitions. True iff some partition still adds or removes
   * replicas; every collaborator error is returned with false.
   */
  method IsReplicationFactorUpdating(topic: string, refreshErr: Option<Error>, partitions: Result<seq<int>, Error>,
                                     listReassignments: seq<int> -> Result<StatusMap, Error>)
    returns (updating: bool, err: Option<Error>)
    ensures refreshErr.Some? ==> !updating && err == refreshErr
    ensures refreshErr.None? && partitions.Err? ==> !updating && err == Some(partitions.error)
    ensures refreshErr.None? && partitions.Ok? && listReassignments(partitions.value).Err? ==>
      !updating && err == Some(listReassignments(partitions.value).error)
    ensures refreshErr.None? && partitions.Ok? && listReassignments(partitions.value).Ok? ==>
      var statuses := TopicStatuses(listReassignments(partitions.value).value, topic);
      err == None && (updating <==> exists p :: p in statuses && IsPartitionRFChanging(statuses[p]))
  {
    if refreshErr.Some? {
      return false, refreshErr;
    }
    if partitions.Err? {
      return false, Some(partitions.error);
    }
    var listed := listReassignments(partitions.value);
    if listed.Err? {
      return false, Some(listed.error);
    }
    var statuses := TopicStatuses(listed.value, topic);
    var remaining := statuses.Keys;
    while remaining != {}
      invariant remaining <= statuses.Keys
      invariant forall p :: p in statuses && p !in remaining ==> !IsPartitionRFChanging(statuses[p])
      decreases remaining
    {
      NonEmptyHasElement(remaining);
      var p :| p in remaining;
      if IsPartitionRFChanging(statuses[p]) {
        return true, None;
      }
      remaining := remaining - {p};
    }
    return false, None;
  }
}
