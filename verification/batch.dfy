/**
 * What `putItemBatch` does to the stored data: each shard's table receives
 * one bulk put of exactly the batch's records routed to that shard, so every
 * record can afterwards be read back through the router.
 */
module Batch {
  import opened Wrappers
  import opened Hex
  import opened Router
  import opened Store
  import opened Db
  import opened Partition
  import opened Sharding

  lemma BucketsRoutable(items: seq<Item>, shardCount: nat, j: nat)
    requires shardCount >= 1 && AllRoutable(items) && j <= shardCount
    ensures RoutableGroups(NonEmpty(Buckets(items, shardCount)[j..]))
  {
    var b: seq<seq<Item>> := Buckets(items, shardCount);
    BucketsAreShardFilters(items, shardCount);
    forall k | 0 <= k < |b[j..]|
      ensures AllRoutable(b[j..][k])
    {
      assert b[j..][k] == b[j + k] == OfShard(items, shardCount, j + k);
    }
    NonEmptyRoutable(b[j..]);
  }

  /**
   * r holds, for every shard s >= j, the old table of s bulk-put with the
   * batch's records for s, and every other table unchanged.
   */
  ghost predicate PutFromShard(svc: Service, r: Service, items: seq<Item>, tableName: string, j: nat)
    requires svc.shardCount >= 1 && AllRoutable(items)
  {
    forall h | h in svc.data ::
      h in r.data
      && r.data[h] == if h.name == tableName && j <= h.shard
                      then BulkPut(svc.data[h], OfShard(items, svc.shardCount, h.shard))
                      else svc.data[h]
  }

  /**
   * Running the groups of shards j and above leaves shards below j alone and
   * bulk-puts into each shard s >= j exactly the batch's records for s.
   */
  lemma {:induction false} PutGroupsFrom(svc: Service, items: seq<Item>, tableName: string, j: nat)
    requires Valid(svc) && AllRoutable(items) && tableName in svc.schema && j <= svc.shardCount
    ensures RoutableGroups(NonEmpty(Buckets(items, svc.shardCount)[j..]))
    ensures PutFromShard(svc, PutGroups(svc, NonEmpty(Buckets(items, svc.shardCount)[j..]), tableName), items, tableName, j)
    decreases svc.shardCount - j, 1
  {
    var n := svc.shardCount;
    var b: seq<seq<Item>> := Buckets(items, n);
    BucketsRoutable(items, n, j);
    BucketsAreShardFilters(items, n);
    if j == n {
      assert b[j..] == [];
    } else if |b[j]| > 0 {
      PutGroupsFromHead(svc, items, tableName, j);
    } else {
      PutGroupsFromSkip(svc, items, tableName, j);
    }
  }

  /** The group of shard j is written first, then the rest. */
  lemma {:induction false} PutGroupsFromHead(svc: Service, items: seq<Item>, tableName: string, j: nat)
    requires Valid(svc) && AllRoutable(items) && tableName in svc.schema && j < svc.shardCount
    requires |Buckets(items, svc.shardCount)[j]| > 0
    ensures RoutableGroups(NonEmpty(Buckets(items, svc.shardCount)[j..]))
    ensures PutFromShard(svc, PutGroups(svc, NonEmpty(Buckets(items, svc.shardCount)[j..]), tableName), items, tableName, j)
    decreases svc.shardCount - j, 0
  {
    var n := svc.shardCount;
    var b: seq<seq<Item>> := Buckets(items, n);
    BucketsRoutable(items, n, j);
    BucketsRoutable(items, n, j + 1);
    BucketsAreShardFilters(items, n);
    assert b[j..][1..] == b[j + 1..];
    var groups := NonEmpty(b[j..]);
    assert groups == [b[j]] + NonEmpty(b[j + 1..]);
    assert groups[0] == b[j] && groups[1..] == NonEmpty(b[j + 1..]);
    assert RoutesTo(b[j][0], n, j);
    var h := TableHandle(j, tableName);
    assert Routed(svc, b[j][0].id, tableName) == h;
    PutPreparedIsWithTable(svc, b[j], tableName);
    var next := PutPreparedItems(svc, b[j], tableName);
    assert next == WithTable(svc, h, BulkPut(svc.data[h], b[j]));
    PutGroupsFrom(next, items, tableName, j + 1);
    assert PutGroups(svc, groups, tableName) == PutGroups(next, groups[1..], tableName);
    assert b[j] == OfShard(items, n, j);
    PutFromShardStep(svc, next, PutGroups(next, groups[1..], tableName), items, tableName, j);
  }

  /** Writing shard j's bulk put, then shards above j, covers shards j and above. */
  lemma PutFromShardStep(svc: Service, next: Service, r: Service, items: seq<Item>, tableName: string, j: nat)
    requires svc.shardCount >= 1 && AllRoutable(items) && TableHandle(j, tableName) in svc.data
    requires next == WithTable(svc, TableHandle(j, tableName),
      BulkPut(svc.data[TableHandle(j, tableName)], OfShard(items, svc.shardCount, j)))
    requires PutFromShard(next, r, items, tableName, j + 1)
    ensures PutFromShard(svc, r, items, tableName, j)
  {
    forall h | h in svc.data
      ensures h in r.data
      ensures r.data[h] == if h.name == tableName && j <= h.shard
                           then BulkPut(svc.data[h], OfShard(items, svc.shardCount, h.shard))
                           else svc.data[h]
    {
      assert h in next.data;
      if h != TableHandle(j, tableName) {
        assert next.data[h] == svc.data[h];
      }
    }
  }

  /** Shard j received nothing; its table is left as it was. */
  lemma {:induction false} PutGroupsFromSkip(svc: Service, items: seq<Item>, tableName: string, j: nat)
    requires Valid(svc) && AllRoutable(items) && tableName in svc.schema && j < svc.shardCount
    requires |Buckets(items, svc.shardCount)[j]| == 0
    ensures RoutableGroups(NonEmpty(Buckets(items, svc.shardCount)[j..]))
    ensures PutFromShard(svc, PutGroups(svc, NonEmpty(Buckets(items, svc.shardCount)[j..]), tableName), items, tableName, j)
    decreases svc.shardCount - j, 0
  {
    var n := svc.shardCount;
    var b: seq<seq<Item>> := Buckets(items, n);
    BucketsRoutable(items, n, j);
    BucketsAreShardFilters(items, n);
    assert b[j..][1..] == b[j + 1..];
    assert NonEmpty(b[j..]) == NonEmpty(b[j + 1..]);
    assert OfShard(items, n, j) == [];
    PutGroupsFrom(svc, items, tableName, j + 1);
    PutFromShardSkip(svc, PutGroups(svc, NonEmpty(b[j + 1..]), tableName), items, tableName, j);
  }

  /** A shard that receives no records needs no write. */
  lemma PutFromShardSkip(svc: Service, r: Service, items: seq<Item>, tableName: string, j: nat)
    requires svc.shardCount >= 1 && AllRoutable(items)
    requires OfShard(items, svc.shardCount, j) == []
    requires PutFromShard(svc, r, items, tableName, j + 1)
    ensures PutFromShard(svc, r, items, tableName, j)
  {
    forall h | h in svc.data && h.name == tableName && h.shard == j
      ensures BulkPut(svc.data[h], OfShard(items, svc.shardCount, h.shard)) == svc.data[h]
    {
    }
  }

  /**
   * `putItemBatch` bulk-puts into every shard's table the batch's records
   * routed to that shard, in input order, and leaves other tables alone.
   */
  lemma PutItemBatchPerShard(svc: Service, items: seq<Item>, tableName: string)
    requires Valid(svc) && AllRoutable(items) && tableName in svc.schema
    ensures PutFromShard(svc, PutItemBatch(svc, items, tableName), items, tableName, 0)
  {
    var b: seq<seq<Item>> := Buckets(items, svc.shardCount);
    assert b[0..] == b;
    PutGroupsFrom(svc, items, tableName, 0);
  }

  /** A key's last record in the batch is its last record among its shard's records. */
  lemma {:induction false} LastWithIdOfShard(items: seq<Item>, shardCount: nat, id: string)
    requires shardCount >= 1 && AllRoutable(items) && IsHexString(id)
    ensures LastWithId(OfShard(items, shardCount, ShardIndex(id, shardCount)), id) == LastWithId(items, id)
  {
    if |items| > 0 {
      var p, x := items[..|items| - 1], items[|items| - 1];
      var s := ShardIndex(id, shardCount);
      AllRoutablePrefix(items, |items| - 1);
      assert items == p + [x];
      OfShardSnoc(p, x, shardCount, s);
      LastWithIdOfShard(p, shardCount, id);
      var f := OfShard(p, shardCount, s);
      assert LastWithId(items, id) == if x.id == id then Some(x) else LastWithId(p, id);
      if ShardIndex(x.id, shardCount) == s {
        LastWithIdSnoc(f, x, id);
      } else {
        assert OfShard(items, shardCount, s) == f;
        assert x.id != id;
      }
    }
  }

  lemma LastWithIdSnoc(f: seq<Item>, x: Item, id: string)
    ensures LastWithId(f + [x], id) == if x.id == id then Some(x) else LastWithId(f, id)
  {
    assert (f + [x])[..|f|] == f;
  }

  /**
   * After `putItemBatch`, reading any id through the router gives its last
   * record in the batch, or what was stored before when the batch lacks it.
   */
  lemma PutItemBatchLookup(svc: Service, items: seq<Item>, tableName: string, id: string)
    requires Valid(svc) && AllRoutable(items) && tableName in svc.schema && IsHexString(id)
    ensures GetItemById(PutItemBatch(svc, items, tableName), id, tableName)
         == if LastWithId(items, id).Some? then LastWithId(items, id) else GetItemById(svc, id, tableName)
  {
    PutItemBatchPerShard(svc, items, tableName);
    var h := Routed(svc, id, tableName);
    BulkPutLookup(svc.data[h], OfShard(items, svc.shardCount, h.shard), id);
    LastWithIdOfShard(items, svc.shardCount, id);
  }

  lemma {:induction false} LastWithIdDistinct(items: seq<Item>, i: nat)
    requires DistinctIds(items) && i < |items|
    ensures LastWithId(items, items[i].id) == Some(items[i])
  {
    if i < |items| - 1 {
      var p := items[..|items| - 1];
      assert DistinctIds(p);
      assert items[|items| - 1].id != items[i].id;
      LastWithIdDistinct(p, i);
    }
  }

  /**
   * Every record of a batch with distinct ids can be read back by its id
   * after `putItemBatch`.
   */
  lemma PutItemBatchStoresEach(svc: Service, items: seq<Item>, tableName: string)
    requires Valid(svc) && AllRoutable(items) && tableName in svc.schema && DistinctIds(items)
    ensures forall i :: 0 <= i < |items| ==>
      GetItemById(PutItemBatch(svc, items, tableName), items[i].id, tableName) == Some(items[i])
  {
    forall i | 0 <= i < |items|
      ensures GetItemById(PutItemBatch(svc, items, tableName), items[i].id, tableName) == Some(items[i])
    {
      PutItemBatchLookup(svc, items, tableName, items[i].id);
      LastWithIdDistinct(items, i);
    }
  }

  /**
   * Bulk puts of two groups into two different shards commute. The claim for
   * any number of groups in any order is `PutItemBatchAnyOrder` below.
   */
  lemma PreparedPutsCommute(svc: Service, g1: seq<Item>, g2: seq<Item>, tableName: string)
    requires Valid(svc) && tableName in svc.schema
    requires |g1| > 0 && IsHexString(g1[0].id) && |g2| > 0 && IsHexString(g2[0].id)
    requires ShardIndex(g1[0].id, svc.shardCount) != ShardIndex(g2[0].id, svc.shardCount)
    ensures PutPreparedItems(PutPreparedItems(svc, g1, tableName), g2, tableName)
         == PutPreparedItems(PutPreparedItems(svc, g2, tableName), g1, tableName)
  {
    var h1, h2 := Routed(svc, g1[0].id, tableName), Routed(svc, g2[0].id, tableName);
    var t1, t2 := BulkPut(svc.data[h1], g1), BulkPut(svc.data[h2], g2);
    PutPreparedIsWithTable(svc, g1, tableName);
    PutPreparedIsWithTable(svc, g2, tableName);
    var s1, s2 := WithTable(svc, h1, t1), WithTable(svc, h2, t2);
    RoutedAfterWrite(svc, s1, g2[0].id, tableName);
    RoutedAfterWrite(svc, s2, g1[0].id, tableName);
    PutPreparedIsWithTable(s1, g2, tableName);
    PutPreparedIsWithTable(s2, g1, tableName);
    WithTableCommute(svc, h1, t1, h2, t2);
  }

  lemma WithTableCommute(svc: Service, h1: TableHandle, t1: Table, h2: TableHandle, t2: Table)
    requires h1 != h2
    ensures WithTable(WithTable(svc, h1, t1), h2, t2) == WithTable(WithTable(svc, h2, t2), h1, t1)
  {
    assert svc.data[h1 := t1][h2 := t2] == svc.data[h2 := t2][h1 := t1];
  }

  lemma PutPreparedIsWithTable(svc: Service, items: seq<Item>, tableName: string)
    requires Valid(svc) && |items| > 0 && IsHexString(items[0].id) && tableName in svc.schema
    ensures PutPreparedItems(svc, items, tableName)
         == WithTable(svc, Routed(svc, items[0].id, tableName),
                      BulkPut(svc.data[Routed(svc, items[0].id, tableName)], items))
  {
  }

  lemma RoutedAfterWrite(a: Service, b: Service, id: string, tableName: string)
    requires Valid(a) && Valid(b) && SameTopology(a, b) && IsHexString(id) && tableName in a.schema
    ensures Routed(a, id, tableName) == Routed(b, id, tableName)
  {
  }

  /** Repeating a batch put changes nothing further. */
  lemma PutItemBatchIdempotent(svc: Service, items: seq<Item>, tableName: string)
    requires Valid(svc) && AllRoutable(items) && tableName in svc.schema
    ensures PutItemBatch(PutItemBatch(svc, items, tableName), items, tableName)
         == PutItemBatch(svc, items, tableName)
  {
    var once := PutItemBatch(svc, items, tableName);
    var twice := PutItemBatch(once, items, tableName);
    PutItemBatchPerShard(svc, items, tableName);
    PutItemBatchPerShard(once, items, tableName);
    forall h | h in svc.data
      ensures twice.data[h] == once.data[h]
    {
      if h.name == tableName {
        BulkPutIdempotent(svc.data[h], OfShard(items, svc.shardCount, h.shard));
      }
    }
    assert twice.data == once.data;
  }

  /** The table a prepared group is written to: that of its first record's shard. */
  function Target(shardCount: nat, group: seq<Item>, tableName: string): (h: TableHandle)
    requires shardCount >= 1 && |group| > 0 && IsHexString(group[0].id)
    ensures h.shard < shardCount && h.name == tableName
  {
    TableHandle(ShardIndex(group[0].id, shardCount), tableName)
  }

  /** No two groups are written to the same table. */
  predicate DistinctTargets(shardCount: nat, groups: seq<seq<Item>>, tableName: string)
    requires shardCount >= 1 && RoutableGroups(groups)
  {
    forall a, b :: 0 <= a < b < |groups| ==>
      Target(shardCount, groups[a], tableName) != Target(shardCount, groups[b], tableName)
  }

  /** Each table a group is aimed at holds that group's bulk put. */
  ghost predicate TargetsWritten(svc: Service, r: Service, groups: seq<seq<Item>>, tableName: string)
    requires svc.shardCount >= 1 && RoutableGroups(groups) && r.data.Keys == svc.data.Keys
  {
    forall k | 0 <= k < |groups| && Target(svc.shardCount, groups[k], tableName) in svc.data ::
      r.data[Target(svc.shardCount, groups[k], tableName)]
        == BulkPut(svc.data[Target(svc.shardCount, groups[k], tableName)], groups[k])
  }

  /** Every table no group is aimed at is kept. */
  ghost predicate OthersKept(svc: Service, r: Service, groups: seq<seq<Item>>, tableName: string)
    requires svc.shardCount >= 1 && RoutableGroups(groups) && r.data.Keys == svc.data.Keys
  {
    forall h | h in svc.data && (forall k :: 0 <= k < |groups| ==> Target(svc.shardCount, groups[k], tableName) != h) ::
      r.data[h] == svc.data[h]
  }

  /**
   * r gives each table the bulk put of the one group aimed at it, and keeps
   * every table no group is aimed at.
   */
  ghost predicate EachGroupWritten(svc: Service, r: Service, groups: seq<seq<Item>>, tableName: string)
    requires svc.shardCount >= 1 && RoutableGroups(groups)
  {
    && r.data.Keys == svc.data.Keys
    && TargetsWritten(svc, r, groups, tableName)
    && OthersKept(svc, r, groups, tableName)
  }

  lemma TailRoutable(groups: seq<seq<Item>>, shardCount: nat, tableName: string)
    requires shardCount >= 1 && |groups| > 0 && RoutableGroups(groups)
    ensures RoutableGroups(groups[1..])
    ensures DistinctTargets(shardCount, groups, tableName) ==> DistinctTargets(shardCount, groups[1..], tableName)
  {
    forall k | 0 <= k < |groups| - 1
      ensures groups[1..][k] == groups[k + 1]
    {
    }
  }

  /** The first group's table is the target of no later group. */
  lemma FirstTargetUnique(shardCount: nat, groups: seq<seq<Item>>, tableName: string)
    requires shardCount >= 1 && |groups| > 0 && RoutableGroups(groups) && RoutableGroups(groups[1..])
    requires DistinctTargets(shardCount, groups, tableName)
    ensures forall j :: 0 <= j < |groups| - 1 ==>
      Target(shardCount, groups[1..][j], tableName) != Target(shardCount, groups[0], tableName)
  {
    forall j | 0 <= j < |groups| - 1
      ensures Target(shardCount, groups[1..][j], tableName) != Target(shardCount, groups[0], tableName)
    {
      assert groups[1..][j] == groups[j + 1];
    }
  }

  /** The first group's write, followed by the rest, writes every group once. */
  lemma EachGroupWrittenStep(svc: Service, next: Service, r: Service, groups: seq<seq<Item>>, tableName: string)
    requires svc.shardCount >= 1 && |groups| > 0 && RoutableGroups(groups) && RoutableGroups(groups[1..])
    requires DistinctTargets(svc.shardCount, groups, tableName)
    requires Target(svc.shardCount, groups[0], tableName) in svc.data
    requires next == WithTable(svc, Target(svc.shardCount, groups[0], tableName),
      BulkPut(svc.data[Target(svc.shardCount, groups[0], tableName)], groups[0]))
    requires EachGroupWritten(next, r, groups[1..], tableName)
    ensures EachGroupWritten(svc, r, groups, tableName)
  {
    TargetsWrittenStep(svc, next, r, groups, tableName);
    OthersKeptStep(svc, next, r, groups, tableName);
  }

  lemma TargetsWrittenStep(svc: Service, next: Service, r: Service, groups: seq<seq<Item>>, tableName: string)
    requires svc.shardCount >= 1 && |groups| > 0 && RoutableGroups(groups) && RoutableGroups(groups[1..])
    requires DistinctTargets(svc.shardCount, groups, tableName)
    requires Target(svc.shardCount, groups[0], tableName) in svc.data
    requires next == WithTable(svc, Target(svc.shardCount, groups[0], tableName),
      BulkPut(svc.data[Target(svc.shardCount, groups[0], tableName)], groups[0]))
    requires r.data.Keys == next.data.Keys
    requires TargetsWritten(next, r, groups[1..], tableName) && OthersKept(next, r, groups[1..], tableName)
    ensures r.data.Keys == svc.data.Keys
    ensures TargetsWritten(svc, r, groups, tableName)
  {
    var n, rest := svc.shardCount, groups[1..];
    FirstTargetUnique(n, groups, tableName);
    forall k | 0 <= k < |groups| && Target(n, groups[k], tableName) in svc.data
      ensures r.data[Target(n, groups[k], tableName)] == BulkPut(svc.data[Target(n, groups[k], tableName)], groups[k])
    {
      if k > 0 {
        assert rest[k - 1] == groups[k];
      }
    }
  }

  lemma OthersKeptStep(svc: Service, next: Service, r: Service, groups: seq<seq<Item>>, tableName: string)
    requires svc.shardCount >= 1 && |groups| > 0 && RoutableGroups(groups) && RoutableGroups(groups[1..])
    requires Target(svc.shardCount, groups[0], tableName) in svc.data
    requires next == WithTable(svc, Target(svc.shardCount, groups[0], tableName),
      BulkPut(svc.data[Target(svc.shardCount, groups[0], tableName)], groups[0]))
    requires r.data.Keys == next.data.Keys
    requires OthersKept(next, r, groups[1..], tableName)
    ensures r.data.Keys == svc.data.Keys
    ensures OthersKept(svc, r, groups, tableName)
  {
    forall h | h in svc.data && (forall k :: 0 <= k < |groups| ==> Target(svc.shardCount, groups[k], tableName) != h)
      ensures r.data[h] == svc.data[h]
    {
      UntargetedInTail(svc.shardCount, groups, tableName, h);
    }
  }

  lemma UntargetedInTail(shardCount: nat, groups: seq<seq<Item>>, tableName: string, h: TableHandle)
    requires shardCount >= 1 && |groups| > 0 && RoutableGroups(groups) && RoutableGroups(groups[1..])
    requires forall k :: 0 <= k < |groups| ==> Target(shardCount, groups[k], tableName) != h
    ensures forall j :: 0 <= j < |groups| - 1 ==> Target(shardCount, groups[1..][j], tableName) != h
  {
    forall j | 0 <= j < |groups| - 1
      ensures Target(shardCount, groups[1..][j], tableName) != h
    {
      assert groups[1..][j] == groups[j + 1];
    }
  }

  /** Groups aimed at distinct tables: each table ends with its group's bulk put. */
  lemma {:induction false} PutGroupsWritesEach(svc: Service, groups: seq<seq<Item>>, tableName: string)
    requires Valid(svc) && RoutableGroups(groups) && tableName in svc.schema
    requires DistinctTargets(svc.shardCount, groups, tableName)
    ensures EachGroupWritten(svc, PutGroups(svc, groups, tableName), groups, tableName)
    decreases |groups|
  {
    if |groups| > 0 {
      var n := svc.shardCount;
      var h0 := Target(n, groups[0], tableName);
      assert Routed(svc, groups[0][0].id, tableName) == h0;
      PutPreparedIsWithTable(svc, groups[0], tableName);
      var next := PutPreparedItems(svc, groups[0], tableName);
      TailRoutable(groups, n, tableName);
      PutGroupsWritesEach(next, groups[1..], tableName);
      assert PutGroups(svc, groups, tableName) == PutGroups(next, groups[1..], tableName);
      EachGroupWrittenStep(svc, next, PutGroups(next, groups[1..], tableName), groups, tableName);
    }
  }

  /** A sequence of groups with distinct targets lists no group twice. */
  lemma {:induction false} DistinctTargetsCountOnce(shardCount: nat, groups: seq<seq<Item>>, tableName: string, g: seq<Item>)
    requires shardCount >= 1 && RoutableGroups(groups) && DistinctTargets(shardCount, groups, tableName)
    ensures multiset(groups)[g] <= 1
  {
    if |groups| > 0 {
      TailRoutable(groups, shardCount, tableName);
      DistinctTargetsCountOnce(shardCount, groups[1..], tableName, g);
      assert groups == [groups[0]] + groups[1..];
      if g == groups[0] {
        forall j | 0 <= j < |groups| - 1
          ensures groups[1..][j] != g
        {
          assert groups[1..][j] == groups[j + 1];
        }
        assert g !in multiset(groups[1..]);
      }
    }
  }

  /** A value at two positions occurs at least twice. */
  lemma TwoPositionsCountTwice<T>(s: seq<T>, a: nat, b: nat)
    requires a < b < |s| && s[a] == s[b]
    ensures multiset(s)[s[a]] >= 2
  {
    assert s == s[..b] + s[b..];
    assert s[a] == s[..b][a];
    assert s[b] == s[b..][0];
  }

  /** Reordering groups with distinct targets keeps them routable and their targets distinct. */
  lemma PermutedTargetsDistinct(shardCount: nat, groups: seq<seq<Item>>, order: seq<seq<Item>>, tableName: string)
    requires shardCount >= 1 && RoutableGroups(groups) && DistinctTargets(shardCount, groups, tableName)
    requires multiset(order) == multiset(groups)
    ensures RoutableGroups(order)
    ensures DistinctTargets(shardCount, order, tableName)
  {
    forall k | 0 <= k < |order|
      ensures |order[k]| > 0 && IsHexString(order[k][0].id)
    {
      assert order[k] in multiset(groups);
    }
    forall a, b | 0 <= a < b < |order|
      ensures Target(shardCount, order[a], tableName) != Target(shardCount, order[b], tableName)
    {
      assert order[a] in multiset(groups) && order[b] in multiset(groups);
      var i :| 0 <= i < |groups| && groups[i] == order[a];
      var j :| 0 <= j < |groups| && groups[j] == order[b];
      if i == j {
        TwoPositionsCountTwice(order, a, b);
        DistinctTargetsCountOnce(shardCount, groups, tableName, order[a]);
      }
    }
  }

  /**
   * Writing the same groups, aimed at distinct tables, in any order reaches
   * the same state.
   */
  lemma PutGroupsOrderIrrelevant(svc: Service, groups: seq<seq<Item>>, order: seq<seq<Item>>, tableName: string)
    requires Valid(svc) && RoutableGroups(groups) && tableName in svc.schema
    requires DistinctTargets(svc.shardCount, groups, tableName)
    requires multiset(order) == multiset(groups)
    ensures RoutableGroups(order)
    ensures PutGroups(svc, order, tableName) == PutGroups(svc, groups, tableName)
  {
    var n := svc.shardCount;
    PermutedTargetsDistinct(n, groups, order, tableName);
    var r1, r2 := PutGroups(svc, groups, tableName), PutGroups(svc, order, tableName);
    PutGroupsWritesEach(svc, groups, tableName);
    PutGroupsWritesEach(svc, order, tableName);
    SameGroupsSameWrites(svc, r1, r2, groups, order, tableName);
  }

  /** Two states that each write the same multiset of groups hold the same tables. */
  lemma SameGroupsSameWrites(svc: Service, r1: Service, r2: Service, g1: seq<seq<Item>>, g2: seq<seq<Item>>, tableName: string)
    requires svc.shardCount >= 1 && RoutableGroups(g1) && RoutableGroups(g2)
    requires multiset(g1) == multiset(g2)
    requires EachGroupWritten(svc, r1, g1, tableName) && EachGroupWritten(svc, r2, g2, tableName)
    ensures r1.data == r2.data
  {
    var n := svc.shardCount;
    forall h | h in svc.data
      ensures r1.data[h] == r2.data[h]
    {
      if k :| 0 <= k < |g1| && Target(n, g1[k], tableName) == h {
        assert g1[k] in multiset(g2);
        var k' :| 0 <= k' < |g2| && g2[k'] == g1[k];
      } else {
        forall k | 0 <= k < |g2|
          ensures Target(n, g2[k], tableName) != h
        {
          assert g2[k] in multiset(g1);
          var k' :| 0 <= k' < |g1| && g1[k'] == g2[k];
        }
      }
    }
  }

  /**
   * `putItemBatch` starts one `putPreparedItems` per group under
   * `Promise.all`: whatever order the writes take effect in, the state is
   * the one of writing the groups in shard order.
   */
  lemma PutItemBatchAnyOrder(svc: Service, items: seq<Item>, tableName: string, order: seq<seq<Item>>)
    requires Valid(svc) && AllRoutable(items) && tableName in svc.schema
    requires multiset(order) == multiset(ShardedItemArrays(items, svc.shardCount))
    ensures RoutableGroups(order)
    ensures PutGroups(svc, order, tableName) == PutItemBatch(svc, items, tableName)
  {
    var n := svc.shardCount;
    var groups := ShardedItemArrays(items, n);
    PartitionGroupsAreShards(items, n);
    assert DistinctTargets(n, groups, tableName);
    PutGroupsOrderIrrelevant(svc, groups, order, tableName);
  }
}
