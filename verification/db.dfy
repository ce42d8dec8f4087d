/**
 * One shard (`ShardedDB`): a database named after the base name and the
 * shard number, holding one table handle per schema entry.
 */
module Db {
  import opened Decimal

  /** Table name to an index specification, handed to storage unread. */
  type Schema = map<string, string>

  /** The address of one table of one shard in the backing storage. */
  datatype TableHandle = TableHandle(shard: nat, name: string)

  datatype Shard = Shard(name: string, schema: Schema, tables: map<string, TableHandle>)

  /**
   * Constructor of `ShardedDB`: the database is named `${name}${number}`,
   * with the number in canonical decimal (no leading zero unless it is 0),
   * the schema is stored as given, and there is exactly one handle per
   * schema key, addressing that table of this shard.
   */
  function NewShard(databaseNumber: nat, name: string, schema: Schema): (db: Shard)
    ensures |db.name| > |name| && db.name[..|name|] == name
    ensures AllDecimalDigits(db.name[|name|..])
    ensures DecimalValue(db.name[|name|..]) == databaseNumber
    ensures db.name[|name|] == '0' ==> databaseNumber == 0 && |db.name| == |name| + 1
    ensures db.schema == schema
    ensures db.tables.Keys == schema.Keys
    ensures forall t | t in db.tables :: db.tables[t] == TableHandle(databaseNumber, t)
  {
    var dbName := name + NatToString(databaseNumber);
    assert dbName[|name|..] == NatToString(databaseNumber);
    DecimalRoundTrip(databaseNumber);
    Shard(dbName, schema, map t | t in schema :: TableHandle(databaseNumber, t))
  }

  /** Distinct shard numbers give distinct database names. */
  lemma ShardNamesDistinct(i: nat, j: nat, name: string, schema: Schema)
    requires i != j
    ensures NewShard(i, name, schema).name != NewShard(j, name, schema).name
  {
  }

  /** An empty schema gives a shard with no tables. */
  lemma EmptySchemaNoTables(i: nat, name: string)
    ensures NewShard(i, name, map[]).tables == map[]
  {
  }

  /** Shard 29 of the default base name is "ShardedDB29". */
  lemma ShardNameExample(schema: Schema)
    ensures NewShard(29, "ShardedDB", schema).name == "ShardedDB29"
    ensures NewShard(0, "testing", schema).name == "testing0"
  {
  }
}
