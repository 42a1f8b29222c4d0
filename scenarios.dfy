/**
 * The cases of topics_test.go, stated against the model: the planner on the pool [1, 2, 3, 4]
 * with current replicas [5, 6, 7], and the reassignment-status check.
 */
module TopicsScenarios {
  import opened Common
  import opened Sequences
  import opened Topics

  /** No change of replication factor: the replicas come back as they are. */
  method KeepReplicas() returns (r: Result<seq<int>, Error>)
    ensures r == Ok([5, 6, 7])
  {
    r := BuildNewReplicas([1, 2, 3, 4], [5, 6, 7], 0);
  }

  /** Dropping four of three replicas is refused. */
  method DropTooMany() returns (r: Result<seq<int>, Error>)
    ensures r == Err(DroppingTooManyReplicas)
  {
    r := BuildNewReplicas([1, 2, 3, 4], [5, 6, 7], -4);
  }

  /** Dropping one replica keeps the first two. */
  method DropOne() returns (r: Result<seq<int>, Error>)
    ensures r == Ok([5, 6])
  {
    r := BuildNewReplicas([1, 2, 3, 4], [5, 6, 7], -1);
    assert [5, 6, 7][..2] == [5, 6];
  }

  /** Adding one replica keeps the three and appends one broker of the pool, whichever was drawn. */
  method AddOne() returns (r: Result<seq<int>, Error>)
    ensures r.Ok? && |r.value| == 4 && r.value[..3] == [5, 6, 7] && r.value[3] in {1, 2, 3, 4}
  {
    r := BuildNewReplicas([1, 2, 3, 4], [5, 6, 7], 1);
    assert r.value[3] in r.value[3..];
  }

  /**
   * Adding two replicas is refused although all four brokers of the pool are unused: the check
   * compares the delta with the pool size minus the replica count, 4 - 3 = 1.
   */
  method AddTwo() returns (r: Result<seq<int>, Error>)
    ensures r == Err(NotEnoughBrokers)
  {
    r := BuildNewReplicas([1, 2, 3, 4], [5, 6, 7], 2);
  }

  /** A partition is changing once it adds or removes brokers, and not while both lists are empty. */
  lemma PartitionRFChangingCases()
    ensures !IsPartitionRFChanging(ReassignmentStatus([], [], []))
    ensures IsPartitionRFChanging(ReassignmentStatus([], [0, 2], []))
    ensures IsPartitionRFChanging(ReassignmentStatus([], [0, 2], [0, 2]))
  {
  }
}
