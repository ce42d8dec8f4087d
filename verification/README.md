# Sharded IndexedDB service — a Dafny model

This project models the routing core of `ShardingService` and the shard
construction of `ShardedDB`.

A service is built with a shard count, a base name and a table schema. It
holds one database per shard, named `${name}${n}`, and each database has one
table per schema entry. Every record carries a string `id`. The id is read
as a hexadecimal number and reduced modulo the shard count, which names the
one shard whose table receives or answers for that record.

The operations modelled are:
- single-record insert, put, delete, update and get;
- the partition of a batch into per-shard groups;
- the prepared bulk put and bulk add of one group;
- the batch put that combines the two above;
- the gather of one table across all shards;
- clearing every table.

Modules, in dependency order:

- `Wrappers`: `Option` and `Result`.
- `Hex`: hexadecimal numerals as `parseInt(id, 16)` reads them.
- `Decimal`: decimal rendering of the shard number in a database name.
- `Router`: `getShardIndex`, with a digit-by-digit reference router.
- `Store`: one Dexie table as a map from key to record, with `add`, `put`, `delete`, `update`, `bulkPut`, `bulkAdd` and an abstract scan.
- `Db`: the `ShardedDB` constructor.
- `Partition`: `getShardedItemArrays`, with a filter-per-shard reference definition.
- `Sharding`: the service state, its validity invariant, and every service operation as a function from state to state.
- `Batch`: what `putItemBatch` does to every shard's table.
- `Properties`: inverses, idempotence, the placement invariant, and the agreement of the gather with point lookups.
- `Scenarios`: the repository's test cases, stated over the model.

A service state holds the topology and a map from `(shard, table)` handles to
tables. Topology means the shard count, the name, the schema and the shards.
`Sharding.Valid` says four things:
- shard `i` is `NewShard(i, name, schema)`;
- there is a table for exactly every shard below the count and every schema entry;
- every table is keyed, meaning each record is stored under its own id;
- the count is at least one.

Every operation keeps `Valid`.

## Model

| member | source | states |
|---|---|---|
| Hex.HexValueIsPositional | src/index.ts:38 | The left-to-right reading of an id equals the sum of each digit times 16 to the power of its position. That sum is the number `parseInt(id, 16)` denotes. |
| Hex.ShortIdsAreExact | src/index.ts:38 | An id of at most 13 hex digits has a value below 2^52. A double holds such a value exactly, so the model's unbounded value is the one `parseInt` returns. |
| Hex.HexValueIgnoresCase | src/index.ts:38 | Lower-casing the digits A-F does not change the value. |
| Hex.LeadingZeroIgnored | src/index.ts:38 | A leading "0" does not change the value. |
| Hex.HexValue | src/index.ts:38 | The value `parseInt(id, 16)` gives a string of hex digits, read left to right; a numeral of k digits is below 16^k. |
| Decimal.DecimalRoundTrip | src/db.ts:28 | The decimal text of the shard number that `${name}${databaseNumber}` appends reads back as that number. |
| Decimal.NatToStringInjective | src/db.ts:28 | Distinct shard numbers are printed as distinct texts. |
| Decimal.NatToString | src/db.ts:28 | The text `${databaseNumber}` renders: non-empty, all decimal digits, and starting with "0" only for the number 0 itself. |
| Router.ShardIndex | src/index.ts:36-40 | The shard of an id is always a valid shard index, below the shard count. |
| Router.ResidueIsShardIndex | src/index.ts:36-40 | The hex value modulo the count equals a remainder carried digit by digit. That reference never forms a number wider than 16 times the count. |
| Router.LeadingZeroSameShard | src/index.ts:38-39 | "0f" and "f" route to the same shard. |
| Router.CaseInsensitiveShard | src/index.ts:38-39 | "AB" and "ab" route to the same shard. |
| Router.SmallIdsClusterLow | src/index.ts:39 | An id whose value is below the count goes to the shard numbered by that value. |
| Router.RouterExamples | src/index.ts:36-40 | With 3 shards, "1", "2", "3" and "10" go to shards 1, 2, 0 and 1. With 4 shards, "ff" goes to shard 3. |
| Db.NewShard | src/db.ts:22-40 | The database name is the base name followed by the canonical decimal text of the shard number: its value is the number, and it starts with "0" only when the number is 0, which is then the whole suffix. The schema is kept. There is exactly one table handle per schema key, and it addresses that table of this shard. |
| Db.ShardNamesDistinct | src/db.ts:28 | Two shards with different numbers get different database names. |
| Db.EmptySchemaNoTables | src/db.ts:34-39 | An empty schema gives a shard with no tables. |
| Db.ShardNameExample | src/db.ts:28 | Shard 29 of "ShardedDB" is named "ShardedDB29", and shard 0 of "testing" is named "testing0". |
| Store.Add | src/index.ts:52 | `table.add` fails exactly when the key is present. On success the key holds the record, every other key is unchanged, and the table stays keyed. |
| Store.Put | src/index.ts:59 | `table.put`: the key holds the record afterwards, every other key is unchanged, and the table stays keyed. |
| Store.Delete | src/index.ts:90 | `table.delete`: the key is absent afterwards and every other key is unchanged. Deleting an absent key is not an error. |
| Store.Update | src/index.ts:98 | `table.update`: an absent key leaves the table as it was. For a present key, the changed properties replace the stored ones and the rest are kept. The set of keys never changes. |
| Store.Get | src/index.ts:113 | `table.get`: in a keyed table, a record found under a key carries that key as its id. |
| Store.BulkPut | src/index.ts:75 | `table.bulkPut` puts the records one after another, and a keyed table stays keyed. What each key holds afterwards is stated by `Store.BulkPutLookup`. |
| Store.BulkAdd | src/index.ts:82 | `table.bulkAdd` never changes a record already stored, reports only records of the batch as refused, and keeps the table keyed. |
| Store.BulkPutLookup | src/index.ts:75 | After `bulkPut`, each key holds its last record in the batch. A key the batch does not mention keeps its old record. |
| Store.BulkPutIdempotent | src/index.ts:75 | Applying the same `bulkPut` twice leaves the table as applying it once. |
| Store.BulkAddKeys | src/index.ts:82 | After `bulkAdd`, the keys are the old keys plus the ids of the batch. |
| Store.BulkAddAccepts | src/index.ts:82 | `bulkAdd` rejects nothing exactly when the batch's ids are distinct and none is already stored. |
| Store.BulkAddStoresAll | src/index.ts:82 | When `bulkAdd` rejects nothing, every record of the batch is stored under its id. |
| Store.Scan | src/index.ts:125 | The scan of a table (`toArray`) has one entry per stored key and lists exactly the stored records. |
| Partition.BucketsAreShardFilters | src/index.ts:29-33 | After the loop, bucket s holds exactly the batch's records routed to s, in input order. |
| Partition.ShardedItemArrays | src/index.ts:27-35 | `getShardedItemArrays` returns at most as many groups as there are shards, and no group is empty. Contents and order are stated by the lemmas below. |
| Partition.PartitionIsPermutation | src/index.ts:27-35 | Concatenating the groups gives back the batch up to order: no record is lost or duplicated. |
| Partition.PartitionGroupsAreShards | src/index.ts:27-35 | There are at most as many groups as shards. Every group is non-empty and equals the batch's records for its first record's shard. Those shards strictly increase from group to group. |
| Partition.PartitionHomogeneousAndOrdered | src/index.ts:27-35 | All records of a group share one shard. Every record of an earlier group has a smaller shard than every record of a later group. |
| Partition.PartitionExample | src/index.ts:27-35 | With 3 shards, ids "1", "2", "3" group as [["3"], ["1"], ["2"]]. |
| Partition.PartitionTenIds | src/index.ts:27-35 | With 3 shards, ids "0" to "9" give three groups of 4, 3 and 3 records. |
| Partition.RoundRobinSizes | src/index.ts:29-33 | When record i routes to shard i mod 3, the first k records put ceil((k - s) / 3) records in bucket s. |
| Sharding.NewService | src/index.ts:8-23 | A count below one fails with "Shard count must be greater than 0.", and any other count succeeds. An empty name becomes "ShardedDB". Shard i is named name + i in decimal. Every table of every shard starts empty, and the state is valid. |
| Sharding.ShardTable | src/index.ts:42-45 | The handle of a named table of a given shard exists, and addresses that shard and that table. |
| Sharding.GetItemById | src/index.ts:108-114 | A record is found exactly when its key is stored in the routed table; the record returned is the one stored there under that key, and it has the requested id. |
| Sharding.InsertItem | src/index.ts:47-53 | Fails with a constraint error exactly when the id is already found. On success only the routed table changes: the id now holds the record, every other key is kept, and the state stays valid. |
| Sharding.PutItem | src/index.ts:54-60 | Only the routed table changes. The id then holds the record and every other key is kept. |
| Sharding.PutPreparedItems | src/index.ts:70-76 | The whole list goes to the first record's shard, and only that table changes. Each key there ends up with its last record in the list, or keeps what it held. |
| Sharding.AddPreparedItems | src/index.ts:77-83 | The whole list goes to the first record's shard. Stored records are never overwritten, and the table's keys become exactly its old keys plus the batch's ids. Nothing is rejected exactly when the ids are distinct and new, and then every record is stored. |
| Sharding.DeleteItemById | src/index.ts:85-91 | Only the routed table changes: the id is gone from it and every other key is kept. |
| Sharding.UpdateItemById | src/index.ts:93-106 | When the id is not found, the state is unchanged and no error arises. Otherwise only the routed table changes: the stored properties are merged with the update's and every other key is kept. |
| Sharding.PutItemBatch | src/index.ts:61-69 | The state stays valid with the same topology, and tables other than the named one are untouched. |
| Sharding.PutGroups | src/index.ts:64-68 | One `putPreparedItems` per group, in list order: the state stays valid with the same topology, and tables other than the named one are untouched. |
| Sharding.GetAllItems | src/index.ts:121-129 | The result is the concatenation, in ascending shard order, of each shard's scan (`toArray`) of the named table, so it has one entry per stored record. A record is listed exactly when the named table of some shard holds it. |
| Sharding.GatherIsFlatten | src/index.ts:123-127 | The loop that pushes shard after shard's records yields, after k shards, the concatenation of the first k scans. |
| Sharding.ClearDatabases | src/index.ts:115-120 | Every table of every shard is empty, and the topology is kept. |
| Batch.PutItemBatchPerShard | src/index.ts:61-69 | Each shard's table receives one bulk put of exactly the batch's records routed to that shard, in input order. Every other table is unchanged. |
| Batch.PutItemBatchLookup | src/index.ts:61-69 | After the batch put, looking any id up through the router gives its last record in the batch. An id the batch lacks gives what was stored before. |
| Batch.PutItemBatchStoresEach | src/index.ts:61-69 | When the batch's ids are distinct, every record can be read back by its id. |
| Batch.PreparedPutsCommute | src/index.ts:64-68 | Bulk puts of two groups for two different shards give the same state in either order. |
| Batch.PutGroupsWritesEach | src/index.ts:64-68 | When the groups go to distinct tables, each such table ends up as the bulk put of its own group, and every other table is kept. |
| Batch.PutGroupsOrderIrrelevant | src/index.ts:64-68 | Writing the same groups, aimed at distinct tables, in any order (any permutation of the list) gives the same state. |
| Batch.PutItemBatchAnyOrder | src/index.ts:61-69 | Whatever order the writes started under `Promise.all` take effect in, the state equals the one `putItemBatch` reaches writing the groups in shard order. |
| Batch.PutItemBatchIdempotent | src/index.ts:61-69 | Repeating a batch put changes nothing further. |
| Batch.LastWithIdOfShard | src/index.ts:29-33 | An id's last record in its shard's group is its last record in the whole batch. |
| Properties.PutItemIdempotent | src/index.ts:54-60 | Putting the same record twice leaves the state of putting it once. |
| Properties.InsertThenDeleteRestores | src/index.ts:85-91 | Inserting a new record and then deleting its id restores the previous state exactly. |
| Properties.DeleteAbsentIsNoOp | src/index.ts:85-91 | Deleting an id that is not found leaves the state unchanged. |
| Properties.NewServicePlaced | src/index.ts:8-23 | A new service satisfies placement: every stored key sits on the shard it routes to. |
| Properties.PutItemKeepsPlacement | src/index.ts:54-60 | `putItem` keeps placement. |
| Properties.InsertItemKeepsPlacement | src/index.ts:47-53 | A successful `insertItem` keeps placement. |
| Properties.DeleteItemKeepsPlacement | src/index.ts:85-91 | `deleteItemById` keeps placement. |
| Properties.UpdateItemKeepsPlacement | src/index.ts:93-106 | `updateItemById` keeps placement. |
| Properties.PutItemBatchKeepsPlacement | src/index.ts:61-69 | `putItemBatch` keeps placement. |
| Properties.PutPreparedSameShardKeepsPlacement | src/index.ts:70-76 | A prepared list whose records all route to the first record's shard keeps placement. |
| Properties.GetAllAgreesWithGet | src/index.ts:121-129 | Under placement, `getAllItems` lists a record exactly when `getItemById` of its id returns it. |
| Properties.ClearEmptiesEverything | src/index.ts:115-120 | After clearing, the gather lists nothing and no id is found. |
| Properties.PutItemBatchThenGetAll | test/test-insertions.test.ts:82-98 | After a batch put with distinct ids, `getAllItems` lists every record of the batch. |
| Scenarios.ConstructionRejectsBadCount | test/test-setup-sharding.test.ts:103-116 | Counts -1 and 0 are refused with "Shard count must be greater than 0.". |
| Scenarios.TestSetupIsFresh | test/test-update.test.ts:14 | `new ShardingService(3, "tester", { items: "id" })` starts valid, with 3 shards, an "items" table and no records. |
| Scenarios.InsertGetDeleteScenario | test/test-delete.test.ts:13-39 | Insert "1" and it reads back. Delete "1" and it is gone. Delete "2" instead and "1" stays. "999" is never found. |
| Scenarios.UpdateScenario | test/test-update.test.ts:13-45 | Updating "1" replaces its name. Updating the absent "2" leaves "1" as inserted. |
| Scenarios.PreparedBatchSpanningShardsIsMisrouted | src/index.ts:70-76 | `putPreparedItems(["1", "2"])` with 3 shards writes both records to shard 1. A lookup of "2", which routes to shard 2, then finds nothing, and placement is broken. |

## Left out

- Ids that are not non-empty strings of hex digits are outside the model. Every operation that routes an id requires one. This leaves out `parseInt`'s acceptance of a valid prefix ("12xyz"), of leading whitespace, signs and "0x". It also leaves out the `NaN` it returns for ids such as "zz", which makes the shard index `NaN` and the table lookup fail.
- Router.ShardIndex: computes over unbounded naturals, while the source computes in doubles. The two agree for ids of at most 13 hex digits (`Hex.ShortIdsAreExact`). Beyond 2^53, `parseInt` loses precision, and the model does not reproduce that rounding.
- An undefined id fails inside `toString()` in the source. The model has no undefined ids.
- An unknown table name makes `getShardTable` return `undefined`, and the call then fails. Every operation instead requires the name to be in the schema.
- Shard counts that are not integers (such as 2.5) are not modelled: the count is an `int`.
- `putItemBatch` runs its per-group writes concurrently under `Promise.all`. The model applies them in shard order, and `Batch.PutItemBatchAnyOrder` proves that every other order of the same writes reaches the same state. The model does not represent writes that interleave inside one `bulkPut`, partial completion when one group fails, or the first-rejection error.
- `putPreparedItems` and `addPreparedItems` on an empty list fail in the source when reading `items[0].id`. The model requires a non-empty list.
- Dexie's `bulkAdd` raises one `BulkError` after committing the records it accepted. The model returns the committed state together with the rejected records, not an exception.
- `clearDatabases` does not await the `clear()` calls in the source. The model gives the state after they all complete.
- The order in which `toArray` lists one table's records is left abstract (`Store.Scan`): only its membership and count are modelled, so `GetAllItems` is a ghost function. The order across shards (ascending shard number) is modelled.
- Dexie's schema strings (primary key and index syntax) are carried but not interpreted. Records are always keyed by `id`.
- Reopening an existing IndexedDB database with stored data is not modelled: a new service starts with empty tables.
- Storage failures (quota, blocked upgrades, closed databases) and the asynchronous `Promise` plumbing are not modelled.
- `console.log` in `updateItemById` is output only and is not modelled.
- `getDataBaseInstances` only returns the shard list. It appears in the model as the `shards` field, and `Sharding.NewService` states its length and names.
- `searchItems` is called by the tests but does not exist in `src/index.ts`, so there is nothing to model.
- Record properties are modelled as a map from names to numbers or strings. Nested objects and Dexie's key-path updates are not modelled.

## Where the model follows the code rather than its comments and tests

- The comment at `src/index.ts:37` speaks of hashing the id, but `src/index.ts:38` does not hash: it reads the id as a base-16 numeral, so an id such as "z" is not routable. The model reads ids in base 16 and hashes nothing.
- `src/index.ts:98-105` only logs "not found" when `updateItemById` meets an absent id; no error reaches the caller. `Sharding.UpdateItemById` leaves the state unchanged and succeeds.
- `test/test-setup-sharding.test.ts:213` expects `getShardedItemArrays` to throw "Item id is required. Current item id is undefined." for records without an id. `src/index.ts:27-35` has no such check: the call fails inside `id.toString()` instead. The model has no undefined ids, and every routed id must be a non-empty string of hex digits.
