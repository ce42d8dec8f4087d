/**
 * The per-shard keyed table the service delegates to (a Dexie table whose
 * primary key is `id`), reduced to a finite map from key to record.
 */
module Store {
  import opened Wrappers

  /** A non-key property of a record. */
  datatype Value = Num(n: int) | Text(s: string)

  /** A record: its primary key and its other properties. */
  datatype Item = Item(id: string, fields: map<string, Value>)

  type Table = map<string, Item>

  /** Rejection of `add` on a key that is already present. */
  datatype StoreError = ConstraintError(key: string)

  /** What `bulkAdd` leaves behind: the table and the records it refused. */
  datatype BulkOutcome = BulkOutcome(table: Table, rejected: seq<Item>)

  /** Every record is stored under its own primary key. */
  predicate Keyed(t: Table) {
    forall k | k in t :: t[k].id == k
  }

  /**
   * `table.get`: the record stored under the key, if any; in a keyed table
   * the record found carries the key it was looked up by.
   */
  function Get(t: Table, key: string): (r: Option<Item>)
    ensures Keyed(t) && r.Some? ==> r.value.id == key
  {
    if key in t then Some(t[key]) else None
  }

  /** `table.add`: insert only when the key is absent. */
  function Add(t: Table, x: Item): (r: Result<Table, StoreError>)
    ensures r.Failure? <==> x.id in t
    ensures r.Success? ==> Get(r.value, x.id) == Some(x)
    ensures r.Success? ==> forall k | k != x.id :: Get(r.value, k) == Get(t, k)
    ensures r.Success? && Keyed(t) ==> Keyed(r.value)
  {
    if x.id in t then Failure(ConstraintError(x.id)) else Success(t[x.id := x])
  }

  /** `table.put`: insert or replace. */
  function Put(t: Table, x: Item): (r: Table)
    ensures Get(r, x.id) == Some(x)
    ensures forall k | k != x.id :: Get(r, k) == Get(t, k)
    ensures Keyed(t) ==> Keyed(r)
  {
    t[x.id := x]
  }

  /** `table.delete`: remove the key if present. */
  function Delete(t: Table, key: string): (r: Table)
    ensures Get(r, key) == None
    ensures forall k | k != key :: Get(r, k) == Get(t, k)
    ensures Keyed(t) ==> Keyed(r)
  {
    t - {key}
  }

  /**
   * `table.update(key, changes)`: when the key is present, every property
   * named in the changes takes its new value and the others are kept.
   */
  function Update(t: Table, changes: Item): (r: Table)
    ensures changes.id !in t ==> r == t
    ensures r.Keys == t.Keys
    ensures changes.id in t ==> Get(r, changes.id) == Some(Item(changes.id, t[changes.id].fields + changes.fields))
    ensures forall k | k != changes.id :: Get(r, k) == Get(t, k)
    ensures Keyed(t) ==> Keyed(r)
  {
    if changes.id in t then t[changes.id := Item(changes.id, t[changes.id].fields + changes.fields)]
    else t
  }

  /** The last record of `items` whose key is `key`, if any. */
  function LastWithId(items: seq<Item>, key: string): (r: Option<Item>)
    ensures r.Some? ==> r.value in items && r.value.id == key
    ensures r.None? ==> forall i :: 0 <= i < |items| ==> items[i].id != key
  {
    if |items| == 0 then None
    else if items[|items| - 1].id == key then Some(items[|items| - 1])
    else LastWithId(items[..|items| - 1], key)
  }

  /** `table.bulkPut`: put each record in order, so a later duplicate wins. */
  function BulkPut(t: Table, items: seq<Item>): (r: Table)
    ensures Keyed(t) ==> Keyed(r)
  {
    if |items| == 0 then t else Put(BulkPut(t, items[..|items| - 1]), items[|items| - 1])
  }

  /** After a bulk put, each key holds its last record in the batch, or what it held before. */
  lemma {:induction false} BulkPutLookup(t: Table, items: seq<Item>, key: string)
    ensures Get(BulkPut(t, items), key)
         == (if LastWithId(items, key).Some? then LastWithId(items, key) else Get(t, key))
  {
    if |items| > 0 {
      BulkPutLookup(t, items[..|items| - 1], key);
    }
  }

  lemma BulkPutLookupAll(t: Table, items: seq<Item>)
    ensures forall k ::
      Get(BulkPut(t, items), k) == (if LastWithId(items, k).Some? then LastWithId(items, k) else Get(t, k))
  {
    forall k
      ensures Get(BulkPut(t, items), k)
           == (if LastWithId(items, k).Some? then LastWithId(items, k) else Get(t, k))
    {
      BulkPutLookup(t, items, k);
    }
  }

  /** Putting the same batch twice has the effect of putting it once. */
  lemma BulkPutIdempotent(t: Table, items: seq<Item>)
    ensures BulkPut(BulkPut(t, items), items) == BulkPut(t, items)
  {
    var once := BulkPut(t, items);
    var twice := BulkPut(once, items);
    forall k
      ensures Get(twice, k) == Get(once, k)
    {
      BulkPutLookup(once, items, k);
      BulkPutLookup(t, items, k);
    }
    forall k | k in twice || k in once
      ensures k in twice && k in once && twice[k] == once[k]
    {
      assert Get(twice, k) == Get(once, k);
    }
  }

  /**
   * `table.bulkAdd`: add each record in order; a record whose key is already
   * present (stored before, or earlier in the batch) is refused and the rest
   * are still committed.
   */
  function BulkAdd(t: Table, items: seq<Item>): (r: BulkOutcome)
    ensures forall k | k in t :: k in r.table && r.table[k] == t[k]
    ensures forall x | x in r.rejected :: x in items
    ensures Keyed(t) ==> Keyed(r.table)
  {
    if |items| == 0 then BulkOutcome(t, [])
    else
      var before := BulkAdd(t, items[..|items| - 1]);
      var x := items[|items| - 1];
      if x.id in before.table then BulkOutcome(before.table, before.rejected + [x])
      else BulkOutcome(before.table[x.id := x], before.rejected)
  }

  /** Keys of a batch are pairwise distinct. */
  predicate DistinctIds(items: seq<Item>) {
    forall i, j :: 0 <= i < j < |items| ==> items[i].id != items[j].id
  }

  /** The keys occurring in a batch. */
  function Ids(items: seq<Item>): (ks: set<string>)
    ensures forall i :: 0 <= i < |items| ==> items[i].id in ks
    ensures forall k | k in ks :: exists i :: 0 <= i < |items| && items[i].id == k
  {
    if |items| == 0 then {} else Ids(items[..|items| - 1]) + {items[|items| - 1].id}
  }

  lemma DistinctIdsSnoc(p: seq<Item>, x: Item)
    ensures DistinctIds(p + [x]) <==> DistinctIds(p) && x.id !in Ids(p)
  {
    var items := p + [x];
    if DistinctIds(p) && x.id !in Ids(p) {
      forall i, j | 0 <= i < j < |items| ensures items[i].id != items[j].id {
        assert items[i] == p[i];
        if j < |p| { assert items[j] == p[j]; }
      }
    }
    if DistinctIds(items) {
      forall i, j | 0 <= i < j < |p| ensures p[i].id != p[j].id {
        assert items[i] == p[i] && items[j] == p[j];
      }
      forall i | 0 <= i < |p| ensures p[i].id != x.id {
        assert items[i] == p[i] && items[|p|] == x;
      }
    }
  }

  /** A bulk add leaves the old keys and adds exactly the batch's keys. */
  lemma {:induction false} BulkAddKeys(t: Table, items: seq<Item>)
    ensures BulkAdd(t, items).table.Keys == t.Keys + Ids(items)
  {
    if |items| > 0 {
      BulkAddKeys(t, items[..|items| - 1]);
    }
  }

  /**
   * A bulk add refuses nothing exactly when the batch's keys are distinct
   * and absent from the table.
   */
  lemma {:induction false} BulkAddAccepts(t: Table, items: seq<Item>)
    ensures BulkAdd(t, items).rejected == [] <==> DistinctIds(items) && Ids(items) !! t.Keys
  {
    if |items| > 0 {
      var p, x := items[..|items| - 1], items[|items| - 1];
      assert items == p + [x];
      BulkAddAccepts(t, p);
      BulkAddKeys(t, p);
      DistinctIdsSnoc(p, x);
    }
  }

  /** A batch added without refusals is stored record by record. */
  lemma {:induction false} BulkAddStoresAll(t: Table, items: seq<Item>)
    ensures BulkAdd(t, items).rejected == [] ==>
      forall i :: 0 <= i < |items| ==> Get(BulkAdd(t, items).table, items[i].id) == Some(items[i])
  {
    if |items| > 0 && BulkAdd(t, items).rejected == [] {
      var p, x := items[..|items| - 1], items[|items| - 1];
      BulkAddStoresAll(t, p);
      BulkAddAccepts(t, items);
      BulkAddAccepts(t, p);
      forall i | 0 <= i < |p| ensures p[i].id != x.id {
        assert items[i] == p[i];
      }
    }
  }

  /** A listing of a table's records in some storage-defined order. */
  ghost function Scan(t: Table): (r: seq<Item>)
    ensures |r| == |t|
    ensures forall x :: x in r <==> x in t.Values
    decreases |t|
  {
    if |t| == 0 then []
    else
      var k :| k in t;
      var rest := t - {k};
      assert |rest| == |t| - 1 by {
        assert rest.Keys == t.Keys - {k};
      }
      var r := [t[k]] + Scan(rest);
      assert forall x :: x in t.Values <==> x == t[k] || x in rest.Values by {
        forall x | x in t.Values ensures x == t[k] || x in rest.Values {
          var k' :| k' in t && t[k'] == x;
          if k' != k { assert rest[k'] == x; }
        }
      }
      r
  }
}
