/**
 * `ShardingService`: a fixed array of shards built at construction, and
 * CRUD, batch and gather operations that route each record to one shard.
 * Each operation is a function from the service state to the new state.
 */
module Sharding {
  import opened Wrappers
  import opened Hex
  import opened Decimal
  import opened Router
  import opened Store
  import opened Db
  import opened Partition

  /** Base name used when the caller passes the empty string. */
  const DefaultName: string := "ShardedDB"

  /** Message of the error thrown for a shard count below one. */
  const ShardCountMessage: string := "Shard count must be greater than 0."

  datatype ConfigError = ConfigError(message: string)

  /**
   * The service: its configuration, its shards (fixed after construction)
   * and the contents of every (shard, table) pair.
   */
  datatype Service = Service(
    shardCount: nat,
    dbName: string,
    schema: Schema,
    shards: seq<Shard>,
    data: map<TableHandle, Table>)

  /**
   * Shard i is the database built with number i, and there is a table for
   * exactly every (shard, schema entry) pair, each keyed by record id.
   */
  ghost predicate Valid(svc: Service) {
    && svc.shardCount >= 1
    && |svc.shards| == svc.shardCount
    && (forall i :: 0 <= i < |svc.shards| ==> svc.shards[i] == NewShard(i, svc.dbName, svc.schema))
    && (forall h :: h in svc.data <==> h.shard < svc.shardCount && h.name in svc.schema)
    && (forall h | h in svc.data :: Keyed(svc.data[h]))
  }

  /** Shard layout and the set of tables are the same in both states. */
  predicate SameTopology(a: Service, b: Service) {
    && a.shardCount == b.shardCount
    && a.dbName == b.dbName
    && a.schema == b.schema
    && a.shards == b.shards
    && a.data.Keys == b.data.Keys
  }

  /** b differs from a at most in the contents of table h. */
  predicate OnlyTableChanged(a: Service, b: Service, h: TableHandle) {
    && SameTopology(a, b)
    && forall h' | h' in a.data && h' != h :: b.data[h'] == a.data[h']
  }

  /** The shards of the constructor's loop, numbered 0 to n - 1. */
  function BuildShards(n: nat, name: string, schema: Schema): (shards: seq<Shard>)
    ensures |shards| == n
    ensures forall i :: 0 <= i < n ==> shards[i] == NewShard(i, name, schema)
  {
    if n == 0 then [] else BuildShards(n - 1, name, schema) + [NewShard(n - 1, name, schema)]
  }

  function Handles(n: nat, schema: Schema): (hs: set<TableHandle>) {
    set i: nat, t: string | i < n && t in schema.Keys :: TableHandle(i, t)
  }

  /**
   * The constructor: a shard count below one is refused; an empty base
   * name becomes "ShardedDB"; shards 0 to n - 1 are built, each with one
   * empty table per schema entry.
   */
  function NewService(shardCount: int, dbName: string, schema: Schema): (r: Result<Service, ConfigError>)
    ensures r.Failure? <==> shardCount < 1
    ensures r.Failure? ==> r.error.message == "Shard count must be greater than 0."
    ensures r.Success? ==>
      && Valid(r.value)
      && r.value.shardCount == shardCount
      && r.value.dbName == (if dbName == "" then "ShardedDB" else dbName)
      && r.value.schema == schema
      && (forall i :: 0 <= i < shardCount ==> r.value.shards[i].name == r.value.dbName + NatToString(i))
      && (forall h | h in r.value.data :: r.value.data[h] == map[])
  {
    if shardCount < 1 then Failure(ConfigError(ShardCountMessage))
    else
      var name := if dbName == "" then DefaultName else dbName;
      HandlesExact(shardCount, schema);
      var data := map h | h in Handles(shardCount, schema) :: map[];
      Success(Service(shardCount, name, schema, BuildShards(shardCount, name, schema), data))
  }

  lemma HandlesExact(n: nat, schema: Schema)
    ensures forall h: TableHandle :: h in Handles(n, schema) <==> h.shard < n && h.name in schema
  {
    forall h: TableHandle | h.shard < n && h.name in schema
      ensures h in Handles(n, schema)
    {
      assert h == TableHandle(h.shard, h.name);
    }
  }

  /** `getShardTable`: the handle of a named table of a given shard. */
  function ShardTable(svc: Service, shardIndex: nat, tableName: string): (h: TableHandle)
    requires Valid(svc) && shardIndex < svc.shardCount && tableName in svc.schema
    ensures h in svc.data
    ensures h.shard == shardIndex && h.name == tableName
  {
    svc.shards[shardIndex].tables[tableName]
  }

  /** The table an id is routed to. */
  function Routed(svc: Service, id: string, tableName: string): (h: TableHandle)
    requires Valid(svc) && IsHexString(id) && tableName in svc.schema
    ensures h in svc.data
  {
    ShardTable(svc, ShardIndex(id, svc.shardCount), tableName)
  }

  /** `getItemById`: look the id up in its routed table only. */
  function GetItemById(svc: Service, id: string, tableName: string): (r: Option<Item>)
    requires Valid(svc) && IsHexString(id) && tableName in svc.schema
    ensures r.Some? ==> r.value.id == id
    ensures r.Some? <==> id in svc.data[TableHandle(ShardIndex(id, svc.shardCount), tableName)]
    ensures r.Some? ==> r.value == svc.data[TableHandle(ShardIndex(id, svc.shardCount), tableName)][id]
  {
    Get(svc.data[Routed(svc, id, tableName)], id)
  }

  function WithTable(svc: Service, h: TableHandle, t: Table): (r: Service) {
    svc.(data := svc.data[h := t])
  }

  /** Replacing one existing table by a keyed one keeps the service valid. */
  lemma WithTableValid(svc: Service, h: TableHandle, t: Table)
    requires Valid(svc) && h in svc.data && Keyed(t)
    ensures Valid(WithTable(svc, h, t))
    ensures OnlyTableChanged(svc, WithTable(svc, h, t), h)
    ensures WithTable(svc, h, t).data[h] == t
  {
    var r := WithTable(svc, h, t);
    assert r.data.Keys == svc.data.Keys;
  }

  /**
   * `insertItem`: add the record to its routed table; refused when the key
   * is already present there, and nothing else changes.
   */
  function InsertItem(svc: Service, item: Item, tableName: string): (r: Result<Service, StoreError>)
    requires Valid(svc) && IsHexString(item.id) && tableName in svc.schema
    ensures r.Failure? <==> GetItemById(svc, item.id, tableName).Some?
    ensures r.Failure? ==> r.error == ConstraintError(item.id)
    ensures r.Success? ==>
      && Valid(r.value)
      && OnlyTableChanged(svc, r.value, Routed(svc, item.id, tableName))
      && GetItemById(r.value, item.id, tableName) == Some(item)
      && (forall k | k != item.id ::
            Get(r.value.data[Routed(svc, item.id, tableName)], k) == Get(svc.data[Routed(svc, item.id, tableName)], k))
  {
    var h := Routed(svc, item.id, tableName);
    match Add(svc.data[h], item)
    case Failure(e) => Failure(e)
    case Success(t) => WithTableValid(svc, h, t); Success(WithTable(svc, h, t))
  }

  /**
   * `putItem`: store the record in its routed table, replacing any record
   * with the same key; nothing else changes.
   */
  function PutItem(svc: Service, item: Item, tableName: string): (r: Service)
    requires Valid(svc) && IsHexString(item.id) && tableName in svc.schema
    ensures Valid(r)
    ensures OnlyTableChanged(svc, r, Routed(svc, item.id, tableName))
    ensures GetItemById(r, item.id, tableName) == Some(item)
    ensures forall k | k != item.id ::
      Get(r.data[Routed(svc, item.id, tableName)], k) == Get(svc.data[Routed(svc, item.id, tableName)], k)
  {
    var h := Routed(svc, item.id, tableName);
    WithTableValid(svc, h, Put(svc.data[h], item));
    WithTable(svc, h, Put(svc.data[h], item))
  }

  /**
   * `putPreparedItems`: the whole list goes to the shard of its first
   * record; each key ends up holding its last record in the list.
   */
  function PutPreparedItems(svc: Service, items: seq<Item>, tableName: string): (r: Service)
    requires Valid(svc) && |items| > 0 && IsHexString(items[0].id) && tableName in svc.schema
    ensures Valid(r)
    ensures OnlyTableChanged(svc, r, Routed(svc, items[0].id, tableName))
    ensures forall k ::
      Get(r.data[Routed(svc, items[0].id, tableName)], k)
        == if LastWithId(items, k).Some? then LastWithId(items, k)
           else Get(svc.data[Routed(svc, items[0].id, tableName)], k)
  {
    var h := Routed(svc, items[0].id, tableName);
    BulkPutLookupAll(svc.data[h], items);
    WithTableValid(svc, h, BulkPut(svc.data[h], items));
    WithTable(svc, h, BulkPut(svc.data[h], items))
  }

  /** The state after `bulkAdd`, and the records it refused. */
  datatype AddOutcome = AddOutcome(service: Service, rejected: seq<Item>)

  /**
   * `addPreparedItems`: the whole list goes to the shard of its first
   * record; a record whose key is taken is refused (and reported), no
   * stored record is overwritten, and the others are added: the table's
   * keys become its old keys plus the batch's ids and nothing else.
   */
  function AddPreparedItems(svc: Service, items: seq<Item>, tableName: string): (r: AddOutcome)
    requires Valid(svc) && |items| > 0 && IsHexString(items[0].id) && tableName in svc.schema
    ensures Valid(r.service)
    ensures OnlyTableChanged(svc, r.service, Routed(svc, items[0].id, tableName))
    ensures forall k | k in svc.data[Routed(svc, items[0].id, tableName)] ::
      Get(r.service.data[Routed(svc, items[0].id, tableName)], k)
        == Get(svc.data[Routed(svc, items[0].id, tableName)], k)
    ensures r.service.data[Routed(svc, items[0].id, tableName)].Keys
      == svc.data[Routed(svc, items[0].id, tableName)].Keys + Ids(items)
    ensures r.rejected == [] <==>
      DistinctIds(items) && Ids(items) !! svc.data[Routed(svc, items[0].id, tableName)].Keys
    ensures r.rejected == [] ==> forall i :: 0 <= i < |items| ==>
      Get(r.service.data[Routed(svc, items[0].id, tableName)], items[i].id) == Some(items[i])
  {
    var h := Routed(svc, items[0].id, tableName);
    var outcome := BulkAdd(svc.data[h], items);
    BulkAddKeys(svc.data[h], items);
    BulkAddAccepts(svc.data[h], items);
    BulkAddStoresAll(svc.data[h], items);
    WithTableValid(svc, h, outcome.table);
    AddOutcome(WithTable(svc, h, outcome.table), outcome.rejected)
  }

  /** `deleteItemById`: remove the key from its routed table, if present. */
  function DeleteItemById(svc: Service, id: string, tableName: string): (r: Service)
    requires Valid(svc) && IsHexString(id) && tableName in svc.schema
    ensures Valid(r)
    ensures OnlyTableChanged(svc, r, Routed(svc, id, tableName))
    ensures GetItemById(r, id, tableName) == None
    ensures forall k | k != id ::
      Get(r.data[Routed(svc, id, tableName)], k) == Get(svc.data[Routed(svc, id, tableName)], k)
  {
    var h := Routed(svc, id, tableName);
    WithTableValid(svc, h, Delete(svc.data[h], id));
    WithTable(svc, h, Delete(svc.data[h], id))
  }

  /**
   * `updateItemById`: when the key is stored in its routed table, the
   * properties of the update replace the stored ones and the rest are kept;
   * when it is not, the state is unchanged and the call still succeeds.
   */
  function UpdateItemById(svc: Service, updated: Item, tableName: string): (r: Service)
    requires Valid(svc) && IsHexString(updated.id) && tableName in svc.schema
    ensures Valid(r)
    ensures GetItemById(svc, updated.id, tableName) == None ==> r == svc
    ensures GetItemById(svc, updated.id, tableName).Some? ==>
      && OnlyTableChanged(svc, r, Routed(svc, updated.id, tableName))
      && GetItemById(r, updated.id, tableName)
           == Some(Item(updated.id, GetItemById(svc, updated.id, tableName).value.fields + updated.fields))
      && forall k | k != updated.id ::
           Get(r.data[Routed(svc, updated.id, tableName)], k) == Get(svc.data[Routed(svc, updated.id, tableName)], k)
  {
    var h := Routed(svc, updated.id, tableName);
    var t := Update(svc.data[h], updated);
    WithTableValid(svc, h, t);
    if t == svc.data[h] then svc else WithTable(svc, h, t)
  }

  /** Every group is non-empty and its first key can be routed. */
  predicate RoutableGroups(groups: seq<seq<Item>>) {
    forall k :: 0 <= k < |groups| ==> |groups[k]| > 0 && IsHexString(groups[k][0].id)
  }

  /** The loop of `putItemBatch`: one `putPreparedItems` per group, in order. */
  function PutGroups(svc: Service, groups: seq<seq<Item>>, tableName: string): (r: Service)
    requires Valid(svc) && RoutableGroups(groups) && tableName in svc.schema
    ensures Valid(r) && SameTopology(svc, r)
    ensures forall h | h in svc.data && h.name != tableName :: r.data[h] == svc.data[h]
    decreases |groups|
  {
    if |groups| == 0 then svc
    else
      var next := PutPreparedItems(svc, groups[0], tableName);
      assert RoutableGroups(groups[1..]) by {
        forall k | 0 <= k < |groups| - 1
          ensures |groups[1..][k]| > 0 && IsHexString(groups[1..][k][0].id)
        {
          assert groups[1..][k] == groups[k + 1];
        }
      }
      assert Routed(svc, groups[0][0].id, tableName).name == tableName;
      PutGroups(next, groups[1..], tableName)
  }

  lemma NonEmptyRoutable(b: seq<seq<Item>>)
    requires forall k :: 0 <= k < |b| ==> AllRoutable(b[k])
    ensures RoutableGroups(NonEmpty(b))
  {
    forall k | 0 <= k < |NonEmpty(b)|
      ensures |NonEmpty(b)[k]| > 0 && IsHexString(NonEmpty(b)[k][0].id)
    {
      NonEmptyAt(b, 0, k);
      assert AllRoutable(b[NonEmptyIndices(b, 0)[k]]);
    }
  }

  /** `putItemBatch`: partition by shard, then one bulk put per group. */
  function PutItemBatch(svc: Service, items: seq<Item>, tableName: string): (r: Service)
    requires Valid(svc) && AllRoutable(items) && tableName in svc.schema
    ensures Valid(r) && SameTopology(svc, r)
    ensures forall h | h in svc.data && h.name != tableName :: r.data[h] == svc.data[h]
  {
    BucketsAreShardFilters(items, svc.shardCount);
    NonEmptyRoutable(Buckets(items, svc.shardCount));
    PutGroups(svc, ShardedItemArrays(items, svc.shardCount), tableName)
  }

  /** Records of shards 0 to k - 1 of one table, shard by shard. */
  ghost function Gather(svc: Service, tableName: string, k: nat): (r: seq<Item>)
    requires Valid(svc) && tableName in svc.schema && k <= svc.shardCount
    ensures forall x :: x in r <==>
      exists i :: 0 <= i < k && x in svc.data[TableHandle(i, tableName)].Values
  {
    if k == 0 then []
    else
      var prev, last := Gather(svc, tableName, k - 1), Scan(svc.data[TableHandle(k - 1, tableName)]);
      GatherStep(svc, tableName, k, prev, last);
      prev + last
  }

  /** Appending the scan of shard k - 1 extends the gathered shards by one. */
  lemma GatherStep(svc: Service, tableName: string, k: nat, prev: seq<Item>, last: seq<Item>)
    requires Valid(svc) && tableName in svc.schema && 1 <= k <= svc.shardCount
    requires forall x :: x in prev <==>
      exists i :: 0 <= i < k - 1 && x in svc.data[TableHandle(i, tableName)].Values
    requires forall x :: x in last <==> x in svc.data[TableHandle(k - 1, tableName)].Values
    ensures forall x :: x in prev + last <==>
      exists i :: 0 <= i < k && x in svc.data[TableHandle(i, tableName)].Values
  {
    forall x | x in prev + last
      ensures exists i :: 0 <= i < k && x in svc.data[TableHandle(i, tableName)].Values
    {
      if x in prev {
        var i :| 0 <= i < k - 1 && x in svc.data[TableHandle(i, tableName)].Values;
      } else {
        assert x in svc.data[TableHandle(k - 1, tableName)].Values;
      }
    }
    forall x | exists i :: 0 <= i < k && x in svc.data[TableHandle(i, tableName)].Values
      ensures x in prev + last
    {
      var i :| 0 <= i < k && x in svc.data[TableHandle(i, tableName)].Values;
      if i < k - 1 {
        assert x in prev;
      } else {
        assert x in last;
      }
    }
  }

  /** The scan of the named table of each shard, indexed by shard. */
  ghost function ShardScans(svc: Service, tableName: string): (scans: seq<seq<Item>>)
    requires Valid(svc) && tableName in svc.schema
    ensures |scans| == svc.shardCount
    ensures forall i :: 0 <= i < |scans| ==> scans[i] == Scan(svc.data[TableHandle(i, tableName)])
  {
    seq(svc.shardCount, i requires 0 <= i < svc.shardCount => Scan(svc.data[TableHandle(i, tableName)]))
  }

  /** Gathering shards 0 to k - 1 is the concatenation of their scans. */
  lemma {:induction false} GatherIsFlatten(svc: Service, tableName: string, k: nat)
    requires Valid(svc) && tableName in svc.schema && k <= svc.shardCount
    ensures Gather(svc, tableName, k) == Flatten(ShardScans(svc, tableName)[..k])
  {
    var scans := ShardScans(svc, tableName);
    if k == 0 {
      assert scans[..0] == [];
    } else {
      GatherIsFlatten(svc, tableName, k - 1);
      FlattenSnoc(scans, k);
    }
  }

  /**
   * `getAllItems`: the scans of every shard's table concatenated in
   * ascending shard order; a record is listed exactly when some shard's
   * table holds it.
   */
  ghost function GetAllItems(svc: Service, tableName: string): (r: seq<Item>)
    requires Valid(svc) && tableName in svc.schema
    ensures r == Flatten(ShardScans(svc, tableName))
    ensures forall x :: x in r <==>
      exists i :: 0 <= i < svc.shardCount && x in svc.data[TableHandle(i, tableName)].Values
  {
    var scans := ShardScans(svc, tableName);
    GatherIsFlatten(svc, tableName, svc.shardCount);
    assert scans[..svc.shardCount] == scans;
    Gather(svc, tableName, svc.shardCount)
  }

  /** `clearDatabases`, taken as completed: every table of every shard is empty. */
  function ClearDatabases(svc: Service): (r: Service)
    requires Valid(svc)
    ensures Valid(r) && SameTopology(svc, r)
    ensures forall h | h in r.data :: r.data[h] == map[]
  {
    svc.(data := map h | h in svc.data :: map[])
  }
}
