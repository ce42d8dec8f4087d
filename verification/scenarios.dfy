/**
 * The scenarios of the repository's tests, stated over the model:
 * construction, naming, insert/get/delete, update, and a prepared batch
 * that spans two shards.
 */
module Scenarios {
  import opened Wrappers
  import opened Hex
  import opened Router
  import opened Store
  import opened Db
  import opened Sharding
  import opened Properties

  /** The schema the tests use: one table "items" keyed by "id". */
  const ItemsSchema: Schema := map["items" := "id"]

  /** A one-character id routes by the value of that digit. */
  lemma SingleDigitRoute(c: char, shardCount: nat)
    requires IsHexDigit(c) && shardCount >= 1
    ensures IsHexString([c]) && ShardIndex([c], shardCount) == DigitValue(c) % shardCount
  {
    assert [c][..0] == [] && [c][0] == c;
    assert HexValue([c]) == HexValue([]) * 16 + DigitValue(c);
  }

  /** A shard count of -1 or 0 is refused with the source's message. */
  lemma ConstructionRejectsBadCount()
    ensures NewService(-1, "testing", ItemsSchema) == Failure(ConfigError("Shard count must be greater than 0."))
    ensures NewService(0, "testing", ItemsSchema) == Failure(ConfigError("Shard count must be greater than 0."))
  {
  }

  /**
   * The state the tests start from: three shards, a table "items", and no
   * records yet.
   */
  ghost predicate FreshThreeShards(svc: Service) {
    && Valid(svc)
    && svc.shardCount == 3
    && "items" in svc.schema
    && forall h | h in svc.data :: svc.data[h] == map[]
  }

  /** `new ShardingService(3, "tester", { items: "id" })` starts in that state. */
  lemma TestSetupIsFresh()
    ensures NewService(3, "tester", ItemsSchema).Success?
    ensures FreshThreeShards(NewService(3, "tester", ItemsSchema).value)
  {
    var r := NewService(3, "tester", ItemsSchema);
    assert "items" in ItemsSchema;
  }

  /** Insert "1", read it back, delete it, read nothing; "999" was never there. */
  lemma InsertGetDeleteScenario(svc: Service)
    requires FreshThreeShards(svc)
    ensures var x := Item("1", map["name" := Text("Service 1")]);
            && GetItemById(svc, "999", "items") == None
            && InsertItem(svc, x, "items").Success?
            && GetItemById(InsertItem(svc, x, "items").value, "1", "items") == Some(x)
            && GetItemById(DeleteItemById(InsertItem(svc, x, "items").value, "1", "items"), "1", "items") == None
            && GetItemById(DeleteItemById(InsertItem(svc, x, "items").value, "2", "items"), "1", "items") == Some(x)
  {
    var x := Item("1", map["name" := Text("Service 1")]);
    SingleDigitRoute('1', 3);
    SingleDigitRoute('2', 3);
    assert IsHexString("999");
    var ins := InsertItem(svc, x, "items").value;
    assert Routed(ins, "1", "items") != Routed(ins, "2", "items");
  }

  /** Updating "1" replaces its name; updating an absent "2" leaves "1" alone. */
  lemma UpdateScenario(svc: Service)
    requires FreshThreeShards(svc)
    ensures var x := Item("1", map["name" := Text("Service 1")]);
            InsertItem(svc, x, "items").Success?
            && var ins := InsertItem(svc, x, "items").value;
            && GetItemById(UpdateItemById(ins, Item("1", map["name" := Text("Updated Service 1")]), "items"), "1", "items")
                 == Some(Item("1", map["name" := Text("Updated Service 1")]))
            && GetItemById(UpdateItemById(ins, Item("2", map["name" := Text("Updated Service 1")]), "items"), "1", "items")
                 == Some(x)
  {
    var x := Item("1", map["name" := Text("Service 1")]);
    SingleDigitRoute('1', 3);
    SingleDigitRoute('2', 3);
    var ins := InsertItem(svc, x, "items").value;
    var y := Item("1", map["name" := Text("Updated Service 1")]);
    assert x.fields + y.fields == y.fields;
    assert GetItemById(ins, "2", "items") == None;
  }

  /**
   * A prepared batch that spans shards is written whole to the first
   * record's shard: "2" is stored on shard 1, so a lookup of "2" (routed to
   * shard 2) finds nothing and placement no longer holds.
   */
  lemma PreparedBatchSpanningShardsIsMisrouted(svc: Service)
    requires FreshThreeShards(svc)
    ensures var batch := [Item("1", map[]), Item("2", map[])];
            var r := PutPreparedItems(svc, batch, "items");
            && GetItemById(r, "1", "items") == Some(batch[0])
            && GetItemById(r, "2", "items") == None
            && !WellPlaced(r)
  {
    var batch := [Item("1", map[]), Item("2", map[])];
    SingleDigitRoute('1', 3);
    SingleDigitRoute('2', 3);
    var r := PutPreparedItems(svc, batch, "items");
    var h1 := TableHandle(1, "items");
    assert LastWithId(batch, "2") == Some(batch[1]);
    assert LastWithId(batch, "1") == Some(batch[0]) by {
      assert batch[..1] == [batch[0]];
    }
    assert Get(r.data[h1], "2") == Some(batch[1]);
    assert "2" in r.data[h1];
  }
}
