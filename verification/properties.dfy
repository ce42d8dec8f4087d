/**
 * Properties that relate several service operations: inverses, idempotence,
 * the placement invariant kept by routed writes, and agreement of the
 * gather with point lookups.
 */
module Properties {
  import opened Wrappers
  import opened Hex
  import opened Router
  import opened Store
  import opened Db
  import opened Partition
  import opened Sharding
  import opened Batch

  /** Every stored record sits in the table of the shard its key routes to. */
  ghost predicate WellPlaced(svc: Service)
    requires Valid(svc)
  {
    forall h | h in svc.data :: TablePlaced(svc.data[h], svc.shardCount, h.shard)
  }

  /** Every key of table t routes to shard s. */
  ghost predicate TablePlaced(t: Table, shardCount: nat, s: nat)
    requires shardCount >= 1
  {
    forall k | k in t :: IsHexString(k) && ShardIndex(k, shardCount) == s
  }

  /** A write confined to one table keeps placement if that table stays placed. */
  lemma WriteKeepsPlacement(svc: Service, r: Service, h: TableHandle)
    requires Valid(svc) && WellPlaced(svc) && Valid(r) && h in svc.data
    requires OnlyTableChanged(svc, r, h)
    requires TablePlaced(r.data[h], r.shardCount, h.shard)
    ensures WellPlaced(r)
  {
    forall h' | h' in r.data
      ensures TablePlaced(r.data[h'], r.shardCount, h'.shard)
    {
      if h' != h {
        assert r.data[h'] == svc.data[h'];
      }
    }
  }

  /** Putting the same record twice leaves the state of putting it once. */
  lemma PutItemIdempotent(svc: Service, item: Item, tableName: string)
    requires Valid(svc) && IsHexString(item.id) && tableName in svc.schema
    ensures PutItem(PutItem(svc, item, tableName), item, tableName) == PutItem(svc, item, tableName)
  {
    var once := PutItem(svc, item, tableName);
    var h := Routed(svc, item.id, tableName);
    assert Routed(once, item.id, tableName) == h;
    assert once.data[h][item.id := item] == once.data[h];
  }

  /** Deleting a key that was just inserted restores the previous state. */
  lemma InsertThenDeleteRestores(svc: Service, item: Item, tableName: string)
    requires Valid(svc) && IsHexString(item.id) && tableName in svc.schema
    requires GetItemById(svc, item.id, tableName) == None
    ensures InsertItem(svc, item, tableName).Success?
    ensures DeleteItemById(InsertItem(svc, item, tableName).value, item.id, tableName) == svc
  {
    var h := Routed(svc, item.id, tableName);
    var t := svc.data[h];
    var ins := WithTable(svc, h, t[item.id := item]);
    assert InsertItem(svc, item, tableName) == Success(ins);
    assert ins.shards == svc.shards;
    assert t[item.id := item] - {item.id} == t;
    assert WithTable(ins, h, t) == svc;
  }

  /** Deleting an absent key is a silent no-op. */
  lemma DeleteAbsentIsNoOp(svc: Service, id: string, tableName: string)
    requires Valid(svc) && IsHexString(id) && tableName in svc.schema
    requires GetItemById(svc, id, tableName) == None
    ensures DeleteItemById(svc, id, tableName) == svc
  {
    var h := Routed(svc, id, tableName);
    assert svc.data[h] - {id} == svc.data[h];
    assert svc.data[h := svc.data[h]] == svc.data;
  }

  /** A routed write of a routable key keeps every record in its own shard. */
  lemma PutItemKeepsPlacement(svc: Service, item: Item, tableName: string)
    requires Valid(svc) && WellPlaced(svc) && IsHexString(item.id) && tableName in svc.schema
    ensures WellPlaced(PutItem(svc, item, tableName))
  {
    var r := PutItem(svc, item, tableName);
    var h := Routed(svc, item.id, tableName);
    assert TablePlaced(svc.data[h], svc.shardCount, h.shard);
    forall k | k in r.data[h]
      ensures IsHexString(k) && ShardIndex(k, r.shardCount) == h.shard
    {
      if k != item.id {
        assert Get(r.data[h], k) == Get(svc.data[h], k);
      }
    }
    WriteKeepsPlacement(svc, r, h);
  }

  lemma InsertItemKeepsPlacement(svc: Service, item: Item, tableName: string)
    requires Valid(svc) && WellPlaced(svc) && IsHexString(item.id) && tableName in svc.schema
    ensures InsertItem(svc, item, tableName).Success? ==> WellPlaced(InsertItem(svc, item, tableName).value)
  {
    if InsertItem(svc, item, tableName).Success? {
      assert InsertItem(svc, item, tableName).value == PutItem(svc, item, tableName);
      PutItemKeepsPlacement(svc, item, tableName);
    }
  }

  lemma DeleteItemKeepsPlacement(svc: Service, id: string, tableName: string)
    requires Valid(svc) && WellPlaced(svc) && IsHexString(id) && tableName in svc.schema
    ensures WellPlaced(DeleteItemById(svc, id, tableName))
  {
    var r := DeleteItemById(svc, id, tableName);
    var h := Routed(svc, id, tableName);
    assert TablePlaced(svc.data[h], svc.shardCount, h.shard);
    forall k | k in r.data[h]
      ensures IsHexString(k) && ShardIndex(k, r.shardCount) == h.shard
    {
      assert Get(r.data[h], k) == Get(svc.data[h], k);
    }
    WriteKeepsPlacement(svc, r, h);
  }

  lemma UpdateItemKeepsPlacement(svc: Service, updated: Item, tableName: string)
    requires Valid(svc) && WellPlaced(svc) && IsHexString(updated.id) && tableName in svc.schema
    ensures WellPlaced(UpdateItemById(svc, updated, tableName))
  {
    var r := UpdateItemById(svc, updated, tableName);
    var h := Routed(svc, updated.id, tableName);
    UpdateKeepsKeys(svc, updated, tableName);
    forall h' | h' in r.data
      ensures TablePlaced(r.data[h'], r.shardCount, h'.shard)
    {
      assert r.data[h'].Keys == svc.data[h'].Keys;
      assert TablePlaced(svc.data[h'], svc.shardCount, h'.shard);
    }
  }

  lemma UpdateKeepsKeys(svc: Service, updated: Item, tableName: string)
    requires Valid(svc) && IsHexString(updated.id) && tableName in svc.schema
    ensures SameTopology(svc, UpdateItemById(svc, updated, tableName))
    ensures forall h | h in svc.data :: UpdateItemById(svc, updated, tableName).data[h].Keys == svc.data[h].Keys
  {
    var h := Routed(svc, updated.id, tableName);
    var t := Update(svc.data[h], updated);
    assert t.Keys == svc.data[h].Keys;
  }

  /** A table of shard s keeps only keys routed to s after a bulk put of s's records. */
  lemma BulkPutOfShardPlaced(t: Table, items: seq<Item>, shardCount: nat, s: nat)
    requires shardCount >= 1 && AllRoutable(items)
    requires TablePlaced(t, shardCount, s)
    ensures TablePlaced(BulkPut(t, OfShard(items, shardCount, s)), shardCount, s)
  {
    var f := OfShard(items, shardCount, s);
    forall k | k in BulkPut(t, f)
      ensures IsHexString(k) && ShardIndex(k, shardCount) == s
    {
      BulkPutLookup(t, f, k);
      if LastWithId(f, k).Some? {
        var x := LastWithId(f, k).value;
        var j :| 0 <= j < |f| && f[j] == x;
        assert RoutesTo(f[j], shardCount, s);
      }
    }
  }

  /** `putItemBatch` keeps every record in its own shard. */
  lemma PutItemBatchKeepsPlacement(svc: Service, items: seq<Item>, tableName: string)
    requires Valid(svc) && WellPlaced(svc) && AllRoutable(items) && tableName in svc.schema
    ensures WellPlaced(PutItemBatch(svc, items, tableName))
  {
    var r := PutItemBatch(svc, items, tableName);
    PutItemBatchPerShard(svc, items, tableName);
    forall h | h in r.data
      ensures TablePlaced(r.data[h], r.shardCount, h.shard)
    {
      if h.name == tableName {
        BulkPutOfShardPlaced(svc.data[h], items, svc.shardCount, h.shard);
      }
    }
  }

  /** A freshly built service holds no records, so placement holds trivially. */
  lemma NewServicePlaced(shardCount: int, dbName: string, schema: Schema)
    requires shardCount >= 1
    ensures NewService(shardCount, dbName, schema).Success?
    ensures WellPlaced(NewService(shardCount, dbName, schema).value)
  {
  }

  /** A prepared batch whose records all share the first one's shard keeps placement. */
  lemma PutPreparedSameShardKeepsPlacement(svc: Service, items: seq<Item>, tableName: string)
    requires Valid(svc) && WellPlaced(svc) && tableName in svc.schema
    requires |items| > 0 && IsHexString(items[0].id)
    requires forall i :: 0 <= i < |items| ==> RoutesTo(items[i], svc.shardCount, ShardIndex(items[0].id, svc.shardCount))
    ensures WellPlaced(PutPreparedItems(svc, items, tableName))
  {
    var r := PutPreparedItems(svc, items, tableName);
    var h := Routed(svc, items[0].id, tableName);
    assert TablePlaced(svc.data[h], svc.shardCount, h.shard);
    forall k | k in r.data[h]
      ensures IsHexString(k) && ShardIndex(k, r.shardCount) == h.shard
    {
      if LastWithId(items, k).Some? {
        var x := LastWithId(items, k).value;
        var j :| 0 <= j < |items| && items[j] == x;
        assert RoutesTo(items[j], svc.shardCount, h.shard);
      } else {
        assert Get(r.data[h], k) == Get(svc.data[h], k);
      }
    }
    WriteKeepsPlacement(svc, r, h);
  }

  /**
   * When placement holds, the gather and the point lookup agree: a record is
   * listed by `getAllItems` exactly when `getItemById` of its key returns it.
   */
  lemma GetAllAgreesWithGet(svc: Service, tableName: string)
    requires Valid(svc) && WellPlaced(svc) && tableName in svc.schema
    ensures forall x :: x in GetAllItems(svc, tableName) <==>
      IsHexString(x.id) && GetItemById(svc, x.id, tableName) == Some(x)
  {
    GatheredAgreesWithGet(svc, tableName, GetAllItems(svc, tableName));
  }

  /** The same agreement for any listing of exactly the stored records. */
  lemma GatheredAgreesWithGet(svc: Service, tableName: string, all: seq<Item>)
    requires Valid(svc) && WellPlaced(svc) && tableName in svc.schema
    requires forall x :: x in all <==>
      exists i :: 0 <= i < svc.shardCount && x in svc.data[TableHandle(i, tableName)].Values
    ensures forall x :: x in all <==>
      IsHexString(x.id) && GetItemById(svc, x.id, tableName) == Some(x)
  {
    forall x
      ensures x in all <==> IsHexString(x.id) && GetItemById(svc, x.id, tableName) == Some(x)
    {
      if x in all {
        var i :| 0 <= i < svc.shardCount && x in svc.data[TableHandle(i, tableName)].Values;
        var h := TableHandle(i, tableName);
        var k :| k in svc.data[h] && svc.data[h][k] == x;
        assert x.id == k;
      }
      if IsHexString(x.id) && GetItemById(svc, x.id, tableName) == Some(x) {
        var h := Routed(svc, x.id, tableName);
        assert svc.data[h][x.id] == x;
        assert x in svc.data[TableHandle(h.shard, tableName)].Values;
      }
    }
  }

  /** After clearing, nothing is listed and nothing is found. */
  lemma ClearEmptiesEverything(svc: Service, tableName: string, id: string)
    requires Valid(svc) && tableName in svc.schema && IsHexString(id)
    ensures GetAllItems(ClearDatabases(svc), tableName) == []
    ensures GetItemById(ClearDatabases(svc), id, tableName) == None
  {
    GatherOfEmptyTables(ClearDatabases(svc), tableName, svc.shardCount);
  }

  lemma {:induction false} GatherOfEmptyTables(svc: Service, tableName: string, k: nat)
    requires Valid(svc) && tableName in svc.schema && k <= svc.shardCount
    requires forall h | h in svc.data :: svc.data[h] == map[]
    ensures Gather(svc, tableName, k) == []
  {
    if k > 0 {
      GatherOfEmptyTables(svc, tableName, k - 1);
      assert |Scan(svc.data[TableHandle(k - 1, tableName)])| == 0;
    }
  }

  /**
   * Every record of a batch with distinct ids is listed by `getAllItems`
   * after `putItemBatch`.
   */
  lemma PutItemBatchThenGetAll(svc: Service, items: seq<Item>, tableName: string)
    requires Valid(svc) && AllRoutable(items) && tableName in svc.schema && DistinctIds(items)
    ensures forall i :: 0 <= i < |items| ==> items[i] in GetAllItems(PutItemBatch(svc, items, tableName), tableName)
  {
    var r := PutItemBatch(svc, items, tableName);
    PutItemBatchStoresEach(svc, items, tableName);
    forall i | 0 <= i < |items|
      ensures items[i] in GetAllItems(r, tableName)
    {
      var h := Routed(r, items[i].id, tableName);
      assert r.data[h][items[i].id] == items[i];
      assert items[i] in r.data[TableHandle(h.shard, tableName)].Values;
    }
  }
}
