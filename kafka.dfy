/**
 * The client's view of the cluster (kafka.go): the API versions every broker supports, obtained
 * by intersecting each broker's ApiVersions answer, and the set of topic names.
 *
 * Each broker's answer arrives on a channel from its own goroutine; the model takes the answers
 * as a sequence in arrival order, which may be any order.
 */
module Kafka {
  import opened Common
  import opened Sequences

  /** One entry of a broker's ApiVersions answer: the versions it supports for one API key. */
  datatype ApiVersionsBlock = ApiVersionsBlock(apiKey: int, minVersion: int, maxVersion: int)

  /** The `[2]int` the source keeps per API key: index 0 is the minimum, index 1 the maximum. */
  datatype VersionRange = VersionRange(min: int, max: int)

  /** What one broker's goroutine sends: its blocks, or the error it met. */
  datatype BrokerReply = Versions(blocks: seq<ApiVersionsBlock>) | Failed(reason: string)

  /**
   * `m` is `start` narrowed by every block of `seen`: it has the keys of both, and for each key
   * its minimum is the largest of the minima on offer (the start value and every block with that
   * key) and its maximum the smallest of the maxima.
   */
  ghost predicate IsIntersection(start: map<int, VersionRange>, seen: set<ApiVersionsBlock>, m: map<int, VersionRange>) {
    && m.Keys == start.Keys + KeysOf(seen)
    && (forall k :: k in start ==> start[k].min <= m[k].min && m[k].max <= start[k].max)
    && (forall b :: b in seen ==> b.minVersion <= m[b.apiKey].min && m[b.apiKey].max <= b.maxVersion)
    && MinsAttained(start, seen, m)
    && MaxsAttained(start, seen, m)
  }

  /** The API keys a set of blocks mentions. */
  ghost function KeysOf(seen: set<ApiVersionsBlock>): set<int> {
    set b | b in seen :: b.apiKey
  }

  /** Every minimum in `m` is one on offer: the start value or some block's minimum for that key. */
  ghost predicate MinsAttained(start: map<int, VersionRange>, seen: set<ApiVersionsBlock>, m: map<int, VersionRange>) {
    forall k :: k in m ==>
      (k in start && m[k].min == start[k].min) || exists b :: b in seen && b.apiKey == k && b.minVersion == m[k].min
  }

  /** Every maximum in `m` is one on offer: the start value or some block's maximum for that key. */
  ghost predicate MaxsAttained(start: map<int, VersionRange>, seen: set<ApiVersionsBlock>, m: map<int, VersionRange>) {
    forall k :: k in m ==>
      (k in start && m[k].max == start[k].max) || exists b :: b in seen && b.apiKey == k && b.maxVersion == m[k].max
  }

  /** Nothing narrows nothing. */
  lemma IntersectionOfNothing(start: map<int, VersionRange>)
    ensures IsIntersection(start, {}, start)
  {
  }

  /** The intersection is unique: whatever order produced two maps, they are the same map. */
  lemma IntersectionUnique(start: map<int, VersionRange>, seen: set<ApiVersionsBlock>, m1: map<int, VersionRange>, m2: map<int, VersionRange>)
    requires IsIntersection(start, seen, m1) && IsIntersection(start, seen, m2)
    ensures m1 == m2
  {
    forall k | k in m1 ensures m1[k] == m2[k] {
      assert m1[k].min == m2[k].min by {
        AttainedMinIsBelow(start, seen, m1, m2, k);
        AttainedMinIsBelow(start, seen, m2, m1, k);
      }
      assert m1[k].max == m2[k].max by {
        AttainedMaxIsAbove(start, seen, m1, m2, k);
        AttainedMaxIsAbove(start, seen, m2, m1, k);
      }
    }
  }

  lemma AttainedMinIsBelow(start: map<int, VersionRange>, seen: set<ApiVersionsBlock>, m1: map<int, VersionRange>, m2: map<int, VersionRange>, k: int)
    requires IsIntersection(start, seen, m1) && IsIntersection(start, seen, m2)
    requires k in m1
    ensures k in m2 && m1[k].min <= m2[k].min
  {
    if !(k in start && m1[k].min == start[k].min) {
      var b :| b in seen && b.apiKey == k && b.minVersion == m1[k].min;
    }
  }

  lemma AttainedMaxIsAbove(start: map<int, VersionRange>, seen: set<ApiVersionsBlock>, m1: map<int, VersionRange>, m2: map<int, VersionRange>, k: int)
    requires IsIntersection(start, seen, m1) && IsIntersection(start, seen, m2)
    requires k in m1
    ensures k in m2 && m2[k].max <= m1[k].max
  {
    if !(k in start && m1[k].max == start[k].max) {
      var b :| b in seen && b.apiKey == k && b.maxVersion == m1[k].max;
    }
  }

  /** Narrowing by s1 and then by s2 is narrowing by both. */
  lemma IntersectionCompose(start: map<int, VersionRange>, s1: set<ApiVersionsBlock>, m1: map<int, VersionRange>,
                            s2: set<ApiVersionsBlock>, m2: map<int, VersionRange>)
    requires IsIntersection(start, s1, m1) && IsIntersection(m1, s2, m2)
    ensures IsIntersection(start, s1 + s2, m2)
  {
    KeysOfUnion(s1, s2);
    ComposeBounds(start, s1, m1, s2, m2);
    ComposeMins(start, s1, m1, s2, m2);
    ComposeMaxs(start, s1, m1, s2, m2);
  }

  lemma KeysOfUnion(s1: set<ApiVersionsBlock>, s2: set<ApiVersionsBlock>)
    ensures KeysOf(s1 + s2) == KeysOf(s1) + KeysOf(s2)
  {
  }

  lemma ComposeBounds(start: map<int, VersionRange>, s1: set<ApiVersionsBlock>, m1: map<int, VersionRange>,
                      s2: set<ApiVersionsBlock>, m2: map<int, VersionRange>)
    requires IsIntersection(start, s1, m1) && IsIntersection(m1, s2, m2)
    ensures forall k :: k in start ==> start[k].min <= m2[k].min && m2[k].max <= start[k].max
    ensures forall b :: b in s1 + s2 ==> b.minVersion <= m2[b.apiKey].min && m2[b.apiKey].max <= b.maxVersion
  {
  }

  lemma ComposeMins(start: map<int, VersionRange>, s1: set<ApiVersionsBlock>, m1: map<int, VersionRange>,
                    s2: set<ApiVersionsBlock>, m2: map<int, VersionRange>)
    requires IsIntersection(start, s1, m1) && IsIntersection(m1, s2, m2)
    ensures MinsAttained(start, s1 + s2, m2)
  {
    forall k | k in m2
      ensures (k in start && m2[k].min == start[k].min) || exists b :: b in s1 + s2 && b.apiKey == k && b.minVersion == m2[k].min
    {
      if !(k in m1 && m2[k].min == m1[k].min) {
        var b :| b in s2 && b.apiKey == k && b.minVersion == m2[k].min;
        assert b in s1 + s2;
      } else if !(k in start && m1[k].min == start[k].min) {
        var b :| b in s1 && b.apiKey == k && b.minVersion == m1[k].min;
        assert b in s1 + s2;
      }
    }
  }

  lemma ComposeMaxs(start: map<int, VersionRange>, s1: set<ApiVersionsBlock>, m1: map<int, VersionRange>,
                    s2: set<ApiVersionsBlock>, m2: map<int, VersionRange>)
    requires IsIntersection(start, s1, m1) && IsIntersection(m1, s2, m2)
    ensures MaxsAttained(start, s1 + s2, m2)
  {
    forall k | k in m2
      ensures (k in start && m2[k].max == start[k].max) || exists b :: b in s1 + s2 && b.apiKey == k && b.maxVersion == m2[k].max
    {
      if !(k in m1 && m2[k].max == m1[k].max) {
        var b :| b in s2 && b.apiKey == k && b.maxVersion == m2[k].max;
        assert b in s1 + s2;
      } else if !(k in start && m1[k].max == start[k].max) {
        var b :| b in s1 && b.apiKey == k && b.maxVersion == m1[k].max;
        assert b in s1 + s2;
      }
    }
  }

  /**
   * The range one block leaves for its key: the block's own range for a new key, otherwise the
   * larger of the minima and the smaller of the maxima.
   */
  function Narrowed(m: map<int, VersionRange>, b: ApiVersionsBlock): (r: VersionRange)
    ensures b.apiKey !in m ==> r == VersionRange(b.minVersion, b.maxVersion)
    ensures b.apiKey in m ==> r.min >= m[b.apiKey].min && r.min >= b.minVersion
                              && (r.min == m[b.apiKey].min || r.min == b.minVersion)
    ensures b.apiKey in m ==> r.max <= m[b.apiKey].max && r.max <= b.maxVersion
                              && (r.max == m[b.apiKey].max || r.max == b.maxVersion)
  {
    if b.apiKey !in m then VersionRange(b.minVersion, b.maxVersion)
    else
      var c := m[b.apiKey];
      VersionRange(if b.minVersion > c.min then b.minVersion else c.min,
                   if b.maxVersion < c.max then b.maxVersion else c.max)
  }

  /** Recording one block's narrowed range is narrowing by that block. */
  lemma NarrowOne(m: map<int, VersionRange>, b: ApiVersionsBlock)
    ensures IsIntersection(m, {b}, m[b.apiKey := Narrowed(m, b)])
  {
    assert KeysOf({b}) == {b.apiKey};
  }

  /**
   * Narrowing by a single block inserts the block's range under a new key and otherwise keeps the
   * larger minimum and the smaller maximum; every other key is unchanged.
   */
  lemma SingleBlockNarrowing(m: map<int, VersionRange>, b: ApiVersionsBlock, updated: map<int, VersionRange>)
    requires IsIntersection(m, {b}, updated)
    ensures updated == m[b.apiKey := Narrowed(m, b)]
  {
    NarrowOne(m, b);
    IntersectionUnique(m, {b}, updated, m[b.apiKey := Narrowed(m, b)]);
  }

  /** Keys are never removed, ranges never widen, and keys no block mentions keep their range. */
  lemma IntersectionOnlyNarrows(start: map<int, VersionRange>, seen: set<ApiVersionsBlock>, m: map<int, VersionRange>)
    requires IsIntersection(start, seen, m)
    ensures start.Keys <= m.Keys
    ensures forall k :: k in start ==> m[k].min >= start[k].min && m[k].max <= start[k].max
    ensures forall k :: k in start && (forall b :: b in seen ==> b.apiKey != k) ==> m[k] == start[k]
  {
  }

  /**
   * updateClusterApiVersions: narrows `cluster` by one broker's blocks. A key seen for the first
   * time takes the broker's range; a known key keeps the larger minimum and the smaller maximum.
   */
  method UpdateClusterApiVersions(cluster: map<int, VersionRange>, brokerApiVersions: seq<ApiVersionsBlock>)
    returns (updated: map<int, VersionRange>)
    ensures IsIntersection(cluster, Elements(brokerApiVersions), updated)
  {
    updated := cluster;
    IntersectionOfNothing(cluster);
    for i := 0 to |brokerApiVersions|
      invariant IsIntersection(cluster, Elements(brokerApiVersions[..i]), updated)
    {
      var apiBlock := brokerApiVersions[i];
      var apiKey, brokerMin, brokerMax := apiBlock.apiKey, apiBlock.minVersion, apiBlock.maxVersion;
      ghost var before := updated;
      if apiKey !in updated {
        updated := updated[apiKey := VersionRange(brokerMin, brokerMax)];
      } else {
        var clusterMinMax := updated[apiKey];
        var clusterMin, clusterMax := clusterMinMax.min, clusterMinMax.max;
        if brokerMin > clusterMin {
          clusterMinMax := clusterMinMax.(min := brokerMin);
        }
        if brokerMax < clusterMax {
          clusterMinMax := clusterMinMax.(max := brokerMax);
        }
        updated := updated[apiKey := clusterMinMax];
      }
      assert updated == before[apiKey := Narrowed(before, apiBlock)];
      NarrowOne(before, apiBlock);
      IntersectionCompose(cluster, Elements(brokerApiVersions[..i]), before, {apiBlock}, updated);
      ElementsSnoc(brokerApiVersions, i);
    }
    assert brokerApiVersions[..|brokerApiVersions|] == brokerApiVersions;
  }

  lemma ElementsSnoc(s: seq<ApiVersionsBlock>, i: int)
    requires 0 <= i < |s|
    ensures Elements(s[..i + 1]) == Elements(s[..i]) + {s[i]}
  {
    assert s[..i + 1] == s[..i] + [s[i]];
  }

  /** Every block any broker reported. */
  ghost function ReportedBlocks(replies: seq<BrokerReply>): set<ApiVersionsBlock> {
    set r, b | r in replies && r.Versions? && b in r.blocks :: b
  }

  /** The errors the brokers reported, in arrival order. */
  function Failures(replies: seq<BrokerReply>): (errs: seq<string>)
    ensures |errs| <= |replies|
    ensures forall e :: e in errs <==> Failed(e) in replies
  {
    if replies == [] then []
    else
      var last := replies[|replies| - 1];
      Failures(replies[..|replies| - 1]) + (if last.Failed? then [last.reason] else [])
  }

  lemma ReportedBlocksSnoc(replies: seq<BrokerReply>, i: int)
    requires 0 <= i < |replies|
    ensures ReportedBlocks(replies[..i + 1])
         == ReportedBlocks(replies[..i]) + (if replies[i].Versions? then Elements(replies[i].blocks) else {})
  {
    assert replies[..i + 1] == replies[..i] + [replies[i]];
  }

  /** Folding in one more broker's versions extends the intersection by that broker's blocks. */
  lemma FoldVersions(replies: seq<BrokerReply>, i: int, before: map<int, VersionRange>, after: map<int, VersionRange>)
    requires 0 <= i < |replies| && replies[i].Versions?
    requires IsIntersection(map[], ReportedBlocks(replies[..i]), before)
    requires IsIntersection(before, Elements(replies[i].blocks), after)
    ensures IsIntersection(map[], ReportedBlocks(replies[..i + 1]), after)
  {
    ReportedBlocksSnoc(replies, i);
    IntersectionCompose(map[], ReportedBlocks(replies[..i]), before, Elements(replies[i].blocks), after);
  }

  lemma FailuresSnoc(replies: seq<BrokerReply>, i: int)
    requires 0 <= i < |replies|
    ensures Failures(replies[..i + 1]) == Failures(replies[..i]) + (if replies[i].Failed? then [replies[i].reason] else [])
  {
    assert replies[..i + 1][..i] == replies[..i];
  }

  lemma {:induction false} NoFailuresIffAllAnswered(replies: seq<BrokerReply>)
    ensures Failures(replies) == [] <==> forall r :: r in replies ==> r.Versions?
  {
    if replies != [] {
      var init := replies[..|replies| - 1];
      var last := replies[|replies| - 1];
      NoFailuresIffAllAnswered(init);
      assert replies == init + [last];
      assert forall r :: r in replies <==> r in init || r == last;
      assert Failures(replies) == Failures(init) + (if last.Failed? then [last.reason] else []);
      if last.Failed? {
        assert |Failures(replies)| > 0;
        assert last in replies && !last.Versions?;
      } else {
        assert Failures(replies) == Failures(init);
      }
    }
  }

  /**
   * One receive of populateAPIVersions' loop: a broker's blocks narrow the cluster map, its
   * error is appended to the collected errors.
   */
  method ReceiveReply(replies: seq<BrokerReply>, i: int, clusterApiVersions: map<int, VersionRange>, errs: seq<string>)
    returns (cluster': map<int, VersionRange>, errs': seq<string>)
    requires 0 <= i < |replies|
    requires IsIntersection(map[], ReportedBlocks(replies[..i]), clusterApiVersions)
    requires errs == Failures(replies[..i])
    ensures IsIntersection(map[], ReportedBlocks(replies[..i + 1]), cluster')
    ensures errs' == Failures(replies[..i + 1])
  {
    FailuresSnoc(replies, i);
    match replies[i]
    case Versions(brokerApiVersions) =>
      cluster' := UpdateClusterApiVersions(clusterApiVersions, brokerApiVersions);
      FoldVersions(replies, i, clusterApiVersions, cluster');
      errs' := errs;
    case Failed(err) =>
      ReportedBlocksSnoc(replies, i);
      cluster' := clusterApiVersions;
      errs' := errs + [err];
  }

  /**
   * The receiving loop of populateAPIVersions: one reply per broker, in arrival order; blocks
   * narrow the cluster map, errors are collected.
   */
  method CollectApiVersions(replies: seq<BrokerReply>) returns (clusterApiVersions: map<int, VersionRange>, errs: seq<string>)
    ensures IsIntersection(map[], ReportedBlocks(replies), clusterApiVersions)
    ensures errs == Failures(replies)
  {
    clusterApiVersions := map[];
    errs := [];
    IntersectionOfNothing(map[]);
    for i := 0 to |replies|
      invariant IsIntersection(map[], ReportedBlocks(replies[..i]), clusterApiVersions)
      invariant errs == Failures(replies[..i])
    {
      clusterApiVersions, errs := ReceiveReply(replies, i, clusterApiVersions, errs);
    }
    assert replies[..|replies|] == replies;
  }

  /** Replies that hold the same answers, in whatever order they arrived, give the same cluster map. */
  lemma ArrivalOrderIrrelevant(replies1: seq<BrokerReply>, replies2: seq<BrokerReply>,
                               m1: map<int, VersionRange>, m2: map<int, VersionRange>)
    requires multiset(replies1) == multiset(replies2)
    requires IsIntersection(map[], ReportedBlocks(replies1), m1)
    requires IsIntersection(map[], ReportedBlocks(replies2), m2)
    ensures m1 == m2
  {
    assert forall r :: r in replies1 <==> r in replies2 by {
      forall r ensures r in replies1 <==> r in replies2 {
        assert r in replies1 <==> r in multiset(replies1);
        assert r in replies2 <==> r in multiset(replies2);
      }
    }
    assert ReportedBlocks(replies1) == ReportedBlocks(replies2);
    IntersectionUnique(map[], ReportedBlocks(replies1), m1, m2);
  }

  /** `supported` holds the keys whose range is non-empty, each mapped to its maximum version. */
  ghost predicate IsSupportedApis(cluster: map<int, VersionRange>, supported: map<int, int>) {
    && (forall k :: k in supported <==> k in cluster && cluster[k].max >= cluster[k].min)
    && (forall k :: k in supported ==> supported[k] == cluster[k].max)
  }

  /** The final loop of populateAPIVersions: keep the non-empty ranges and record their maximum. */
  method SupportedApis(clusterApiVersions: map<int, VersionRange>) returns (supported: map<int, int>)
    ensures IsSupportedApis(clusterApiVersions, supported)
  {
    supported := map[];
    var remaining := clusterApiVersions.Keys;
    while remaining != {}
      invariant remaining <= clusterApiVersions.Keys
      invariant forall k :: k in supported <==> k in clusterApiVersions && k !in remaining
                                                && clusterApiVersions[k].max >= clusterApiVersions[k].min
      invariant forall k :: k in supported ==> supported[k] == clusterApiVersions[k].max
      decreases remaining
    {
      NonEmptyHasElement(remaining);
      var apiKey :| apiKey in remaining;
      var versionMinMax := clusterApiVersions[apiKey];
      var versionMin, versionMax := versionMinMax.min, versionMinMax.max;
      if versionMax >= versionMin {
        supported := supported[apiKey := versionMax];
      }
      remaining := remaining - {apiKey};
    }
  }

  /** The fields of the client wrapper that its setup fills in from the cluster. */
  class SaramaClient {
    var supportedAPIs: map<int, int>
    var topics: set<string>

    constructor ()
      ensures supportedAPIs == map[] && topics == {}
    {
      supportedAPIs := map[];
      topics := {};
    }

    /**
     * extractTopics: on success `topics` becomes exactly the set of listed names; on an error
     * from the topic listing it is left as it was.
     */
    method ExtractTopics(listed: Result<seq<string>, string>) returns (err: Option<string>)
      modifies this
      ensures listed.Err? ==> err == Some(listed.error) && topics == old(topics)
      ensures listed.Ok? ==> err == None && topics == Elements(listed.value)
      ensures supportedAPIs == old(supportedAPIs)
    {
      if listed.Err? {
        return Some(listed.error);
      }
      var names := listed.value;
      topics := {};
      for i := 0 to |names|
        invariant topics == Elements(names[..i])
        invariant supportedAPIs == old(supportedAPIs)
      {
        assert names[..i + 1] == names[..i] + [names[i]];
        topics := topics + {names[i]};
      }
      assert names[..|names|] == names;
      return None;
    }

    /**
     * populateAPIVersions: intersect the brokers' answers; if any broker failed, return all the
     * errors and leave `supportedAPIs` alone, otherwise record the supported APIs.
     */
    method PopulateAPIVersions(replies: seq<BrokerReply>) returns (err: Option<seq<string>>)
      modifies this
      ensures Failures(replies) != [] ==> err == Some(Failures(replies)) && supportedAPIs == old(supportedAPIs)
      ensures Failures(replies) == [] ==>
                && err == None
                && exists cluster :: IsIntersection(map[], ReportedBlocks(replies), cluster) && IsSupportedApis(cluster, supportedAPIs)
      ensures topics == old(topics)
    {
      var clusterApiVersions, errs := CollectApiVersions(replies);
      if |errs| != 0 {
        return Some(errs);
      }
      supportedAPIs := SupportedApis(clusterApiVersions);
      return None;
    }
  }
}
