/**
 * The partitioner of `ShardingService.getShardedItemArrays`: records are
 * appended, in input order, to one bucket per shard; the buckets are then
 * listed in ascending shard order with the empty ones dropped.
 */
module Partition {
  import opened Hex
  import opened Router
  import opened Store
  import opened Decimal

  /** Every record's key can be routed. */
  predicate AllRoutable(items: seq<Item>) {
    forall i :: 0 <= i < |items| ==> IsHexString(items[i].id)
  }

  /** Record x is routed to shard s. */
  predicate RoutesTo(x: Item, shardCount: nat, s: nat)
    requires shardCount >= 1
  {
    IsHexString(x.id) && ShardIndex(x.id, shardCount) == s
  }

  /** Reference: the records of `items` routed to shard s, in input order. */
  function OfShard(items: seq<Item>, shardCount: nat, s: nat): (r: seq<Item>)
    requires shardCount >= 1 && AllRoutable(items)
    ensures |r| <= |items|
    ensures forall j :: 0 <= j < |r| ==> r[j] in items && RoutesTo(r[j], shardCount, s)
  {
    if |items| == 0 then []
    else (if ShardIndex(items[0].id, shardCount) == s then [items[0]] else [])
         + OfShard(items[1..], shardCount, s)
  }

  /** The per-shard buckets after the loop of the source has run over `items`. */
  function Buckets(items: seq<Item>, shardCount: nat): (b: seq<seq<Item>>)
    requires shardCount >= 1 && AllRoutable(items)
    ensures |b| == shardCount
  {
    if |items| == 0 then seq(shardCount, _ => [])
    else
      var b := Buckets(items[..|items| - 1], shardCount);
      var x := items[|items| - 1];
      var s := ShardIndex(x.id, shardCount);
      b[s := b[s] + [x]]
  }

  /** `filter((shardItems) => shardItems.length > 0)`. */
  function NonEmpty<T>(b: seq<seq<T>>): (r: seq<seq<T>>)
    ensures |r| <= |b|
    ensures forall k :: 0 <= k < |r| ==> |r[k]| > 0
  {
    if |b| == 0 then []
    else (if |b[0]| > 0 then [b[0]] else []) + NonEmpty(b[1..])
  }

  /** Positions (offset by `base`) of the buckets that NonEmpty keeps. */
  function NonEmptyIndices<T>(b: seq<seq<T>>, base: nat): (ix: seq<nat>) {
    if |b| == 0 then []
    else (if |b[0]| > 0 then [base] else []) + NonEmptyIndices(b[1..], base + 1)
  }

  /** The concatenation of a list of groups. */
  function Flatten<T>(b: seq<seq<T>>): (r: seq<T>) {
    if |b| == 0 then [] else b[0] + Flatten(b[1..])
  }

  /** `getShardedItemArrays(items)` over `shardCount` shards. */
  function ShardedItemArrays(items: seq<Item>, shardCount: nat): (groups: seq<seq<Item>>)
    requires shardCount >= 1 && AllRoutable(items)
    ensures |groups| <= shardCount
    ensures forall k :: 0 <= k < |groups| ==> |groups[k]| > 0
  {
    NonEmpty(Buckets(items, shardCount))
  }

  lemma AllRoutablePrefix(items: seq<Item>, k: nat)
    requires AllRoutable(items) && k <= |items|
    ensures AllRoutable(items[..k])
  {
    assert forall i :: 0 <= i < k ==> items[..k][i] == items[i];
  }

  lemma {:induction false} OfShardSnoc(p: seq<Item>, x: Item, shardCount: nat, s: nat)
    requires shardCount >= 1 && AllRoutable(p) && IsHexString(x.id)
    ensures AllRoutable(p + [x])
    ensures OfShard(p + [x], shardCount, s)
         == OfShard(p, shardCount, s) + (if ShardIndex(x.id, shardCount) == s then [x] else [])
  {
    var items := p + [x];
    assert AllRoutable(items) by {
      forall i | 0 <= i < |items| ensures IsHexString(items[i].id) {
        if i < |p| { assert items[i] == p[i]; }
      }
    }
    if |p| > 0 {
      var q := p[1..];
      var head := if ShardIndex(p[0].id, shardCount) == s then [p[0]] else [];
      assert items[0] == p[0] && items[1..] == q + [x];
      assert AllRoutable(q) by {
        forall i | 0 <= i < |q| ensures IsHexString(q[i].id) {
          assert q[i] == p[i + 1];
        }
      }
      OfShardSnoc(q, x, shardCount, s);
      assert OfShard(p, shardCount, s) == head + OfShard(q, shardCount, s);
      assert OfShard(items, shardCount, s) == head + OfShard(q + [x], shardCount, s);
    } else {
      assert items == [x];
      assert items[1..] == [];
    }
  }

  /** Bucket s holds exactly the records routed to s, in input order. */
  lemma {:induction false} BucketsAreShardFilters(items: seq<Item>, shardCount: nat)
    requires shardCount >= 1 && AllRoutable(items)
    ensures forall s :: 0 <= s < shardCount ==> Buckets(items, shardCount)[s] == OfShard(items, shardCount, s)
  {
    if |items| > 0 {
      var p, x := items[..|items| - 1], items[|items| - 1];
      AllRoutablePrefix(items, |items| - 1);
      BucketsAreShardFilters(p, shardCount);
      assert items == p + [x];
      forall s | 0 <= s < shardCount
        ensures Buckets(items, shardCount)[s] == OfShard(items, shardCount, s)
      {
        OfShardSnoc(p, x, shardCount, s);
      }
    }
  }

  lemma {:induction false} NonEmptyIndicesLength<T>(b: seq<seq<T>>, base: nat)
    ensures |NonEmptyIndices(b, base)| == |NonEmpty(b)|
  {
    if |b| > 0 {
      NonEmptyIndicesLength(b[1..], base + 1);
    }
  }

  lemma {:induction false} NonEmptyIndicesRange<T>(b: seq<seq<T>>, base: nat)
    ensures forall k :: 0 <= k < |NonEmptyIndices(b, base)| ==>
              base <= NonEmptyIndices(b, base)[k] < base + |b|
    ensures forall k, l :: 0 <= k < l < |NonEmptyIndices(b, base)| ==>
              NonEmptyIndices(b, base)[k] < NonEmptyIndices(b, base)[l]
  {
    if |b| > 0 {
      NonEmptyIndicesRange(b[1..], base + 1);
    }
  }

  lemma {:induction false} NonEmptyIndexed<T>(b: seq<seq<T>>, base: nat)
    ensures |NonEmptyIndices(b, base)| == |NonEmpty(b)|
    ensures forall k :: 0 <= k < |NonEmpty(b)| ==>
              base <= NonEmptyIndices(b, base)[k] < base + |b|
              && NonEmpty(b)[k] == b[NonEmptyIndices(b, base)[k] - base]
  {
    NonEmptyIndicesLength(b, base);
    NonEmptyIndicesRange(b, base);
    forall k | 0 <= k < |NonEmpty(b)|
      ensures NonEmpty(b)[k] == b[NonEmptyIndices(b, base)[k] - base]
    {
      NonEmptyAt(b, base, k);
    }
  }

  /** The k-th kept bucket is the bucket at the k-th kept position. */
  lemma {:induction false} NonEmptyAt<T>(b: seq<seq<T>>, base: nat, k: nat)
    requires k < |NonEmpty(b)|
    ensures |NonEmptyIndices(b, base)| == |NonEmpty(b)|
    ensures base <= NonEmptyIndices(b, base)[k] < base + |b|
    ensures NonEmpty(b)[k] == b[NonEmptyIndices(b, base)[k] - base]
    decreases |b|
  {
    NonEmptyIndicesLength(b, base);
    NonEmptyIndicesRange(b, base);
    var ix, ix' := NonEmptyIndices(b, base), NonEmptyIndices(b[1..], base + 1);
    var head := if |b[0]| > 0 then 1 else 0;
    if k < head {
      assert NonEmpty(b)[k] == b[0] && ix[k] == base;
    } else {
      NonEmptyAt(b[1..], base + 1, k - head);
      assert NonEmpty(b)[k] == NonEmpty(b[1..])[k - head];
      assert ix[k] == ix'[k - head];
      assert b[1..][ix'[k - head] - (base + 1)] == b[ix'[k - head] - base];
    }
  }

  lemma {:induction false} FlattenNonEmpty<T>(b: seq<seq<T>>)
    ensures Flatten(NonEmpty(b)) == Flatten(b)
  {
    if |b| > 0 {
      FlattenNonEmpty(b[1..]);
      if |b[0]| == 0 {
        assert NonEmpty(b) == NonEmpty(b[1..]);
        assert Flatten(b) == b[0] + Flatten(b[1..]) == Flatten(b[1..]);
      } else {
        FlattenConcat([b[0]], NonEmpty(b[1..]));
        assert Flatten([b[0]]) == b[0] + Flatten([b[0]][1..]);
        assert [b[0]][1..] == [];
      }
    }
  }

  lemma {:induction false} FlattenConcat<T>(a: seq<seq<T>>, c: seq<seq<T>>)
    ensures Flatten(a + c) == Flatten(a) + Flatten(c)
  {
    if |a| > 0 {
      assert (a + c)[1..] == a[1..] + c;
      FlattenConcat(a[1..], c);
    } else {
      assert a + c == c;
    }
  }

  /** Flattening a prefix one group longer appends that group. */
  lemma FlattenSnoc<T>(b: seq<seq<T>>, k: nat)
    requires 0 < k <= |b|
    ensures Flatten(b[..k]) == Flatten(b[..k - 1]) + b[k - 1]
  {
    assert b[..k] == b[..k - 1] + [b[k - 1]];
    FlattenConcat(b[..k - 1], [b[k - 1]]);
    assert [b[k - 1]][1..] == [];
  }

  lemma {:induction false} FlattenEmpties<T>(b: seq<seq<T>>)
    requires forall k :: 0 <= k < |b| ==> b[k] == []
    ensures Flatten(b) == []
  {
    if |b| > 0 {
      FlattenEmpties(b[1..]);
    }
  }

  /** Appending x to one bucket adds x once to the flattened contents. */
  lemma {:induction false} FlattenAppendAt<T>(b: seq<seq<T>>, i: nat, x: T)
    requires i < |b|
    ensures multiset(Flatten(b[i := b[i] + [x]])) == multiset(Flatten(b)) + multiset{x}
  {
    var b' := b[i := b[i] + [x]];
    if i == 0 {
      assert b'[1..] == b[1..];
    } else {
      assert b'[1..] == b[1..][i - 1 := b[1..][i - 1] + [x]];
      FlattenAppendAt(b[1..], i - 1, x);
    }
  }

  lemma {:induction false} BucketsPermutation(items: seq<Item>, shardCount: nat)
    requires shardCount >= 1 && AllRoutable(items)
    ensures multiset(Flatten(Buckets(items, shardCount))) == multiset(items)
  {
    if |items| == 0 {
      FlattenEmpties(Buckets(items, shardCount));
    } else {
      var p, x := items[..|items| - 1], items[|items| - 1];
      AllRoutablePrefix(items, |items| - 1);
      var b, s := Buckets(p, shardCount), ShardIndex(x.id, shardCount);
      assert Buckets(items, shardCount) == b[s := b[s] + [x]];
      BucketsPermutation(p, shardCount);
      FlattenAppendAt(b, s, x);
      assert items == p + [x];
      assert multiset(items) == multiset(p) + multiset{x};
    }
  }

  /**
   * Flattening the groups gives back the input, up to order: nothing is
   * lost and nothing is duplicated.
   */
  lemma PartitionIsPermutation(items: seq<Item>, shardCount: nat)
    requires shardCount >= 1 && AllRoutable(items)
    ensures multiset(Flatten(ShardedItemArrays(items, shardCount))) == multiset(items)
  {
    FlattenNonEmpty(Buckets(items, shardCount));
    BucketsPermutation(items, shardCount);
  }

  /**
   * Each group is exactly the input's records for one shard, in input order,
   * and distinct groups are for distinct shards in ascending order.
   */
  lemma PartitionGroupsAreShards(items: seq<Item>, shardCount: nat)
    requires shardCount >= 1 && AllRoutable(items)
    ensures var groups := ShardedItemArrays(items, shardCount);
      |groups| <= shardCount
      && (forall k :: 0 <= k < |groups| ==>
            |groups[k]| > 0 && IsHexString(groups[k][0].id)
            && groups[k] == OfShard(items, shardCount, ShardIndex(groups[k][0].id, shardCount)))
      && (forall k, l :: 0 <= k < l < |groups| ==>
            ShardIndex(groups[k][0].id, shardCount) < ShardIndex(groups[l][0].id, shardCount))
  {
    var b := Buckets(items, shardCount);
    var groups: seq<seq<Item>> := ShardedItemArrays(items, shardCount);
    var ix := NonEmptyIndices(b, 0);
    NonEmptyIndexed(b, 0);
    NonEmptyIndicesRange(b, 0);
    BucketsAreShardFilters(items, shardCount);
    forall k | 0 <= k < |groups|
      ensures IsHexString(groups[k][0].id) && ShardIndex(groups[k][0].id, shardCount) == ix[k]
      ensures groups[k] == OfShard(items, shardCount, ShardIndex(groups[k][0].id, shardCount))
    {
      assert groups[k] == b[ix[k]] == OfShard(items, shardCount, ix[k]);
      assert RoutesTo(groups[k][0], shardCount, ix[k]);
    }
  }

  /**
   * All records of a group share one shard, and every record of an earlier
   * group has a smaller shard index than every record of a later group.
   */
  lemma PartitionHomogeneousAndOrdered(items: seq<Item>, shardCount: nat)
    requires shardCount >= 1 && AllRoutable(items)
    ensures var groups := ShardedItemArrays(items, shardCount);
      (forall k, i :: 0 <= k < |groups| && 0 <= i < |groups[k]| ==>
          IsHexString(groups[k][0].id) && IsHexString(groups[k][i].id)
          && ShardIndex(groups[k][i].id, shardCount) == ShardIndex(groups[k][0].id, shardCount))
      && (forall k, l, i, j :: 0 <= k < l < |groups| && 0 <= i < |groups[k]| && 0 <= j < |groups[l]| ==>
          ShardIndex(groups[k][i].id, shardCount) < ShardIndex(groups[l][j].id, shardCount))
  {
    var groups: seq<seq<Item>> := ShardedItemArrays(items, shardCount);
    PartitionGroupsAreShards(items, shardCount);
    forall k, i | 0 <= k < |groups| && 0 <= i < |groups[k]|
      ensures RoutesTo(groups[k][i], shardCount, ShardIndex(groups[k][0].id, shardCount))
    {
    }
  }

  /** Ids "1", "2", "3" over three shards group as [["3"], ["1"], ["2"]]. */
  lemma PartitionExample()
    ensures var a := Item("1", map["userId" := Num(123), "postId" := Num(456)]);
            var b := Item("2", map["userId" := Num(456), "postId" := Num(789)]);
            var c := Item("3", map["userId" := Num(789), "postId" := Num(123)]);
            AllRoutable([a, b, c]) && ShardedItemArrays([a, b, c], 3) == [[c], [a], [b]]
  {
    var a := Item("1", map["userId" := Num(123), "postId" := Num(456)]);
    var b := Item("2", map["userId" := Num(456), "postId" := Num(789)]);
    var c := Item("3", map["userId" := Num(789), "postId" := Num(123)]);
    var items := [a, b, c];
    RouterExamples();
    assert items[..2] == [a, b] && [a, b][..1] == [a] && [a][..0] == [];
    var b0 := Buckets([], 3);
    assert b0[0] == [] && b0[1] == [] && b0[2] == [];
    var b1 := Buckets([a], 3);
    assert b1 == b0[1 := b0[1] + [a]];
    assert b1[0] == [] && b1[1] == [a] && b1[2] == [];
    var b2 := Buckets([a, b], 3);
    assert b2 == b1[2 := b1[2] + [b]];
    assert b2[0] == [] && b2[1] == [a] && b2[2] == [b];
    var bk := Buckets(items, 3);
    assert bk == b2[0 := b2[0] + [c]];
    assert bk[0] == [c] && bk[1] == [a] && bk[2] == [b];
    assert NonEmpty(bk) == [[c]] + NonEmpty(bk[1..]);
    assert NonEmpty(bk[1..]) == [[a]] + NonEmpty(bk[2..]);
    assert NonEmpty(bk[2..]) == [[b]] + NonEmpty(bk[3..]);
  }

  /** Ids "0" to "9" over three shards give groups of 4, 3 and 3 records. */
  lemma PartitionTenIds()
    ensures var items := seq(10, i requires 0 <= i < 10 => Item([DigitChar(i)], map[]));
            AllRoutable(items)
            && var groups := ShardedItemArrays(items, 3);
            |groups| == 3 && |groups[0]| == 4 && |groups[1]| == 3 && |groups[2]| == 3
  {
    var items := seq(10, i requires 0 <= i < 10 => Item([DigitChar(i)], map[]));
    assert AllRoutable(items);
    forall i | 0 <= i < 10
      ensures ShardIndex(items[i].id, 3) == i % 3
    {
      assert items[i].id[..0] == [];
      assert HexValue(items[i].id) == DigitValue(DigitChar(i)) == i;
    }
    RoundRobinSizes(items, 10);
    assert items[..10] == items;
    var bk := Buckets(items, 3);
    assert |bk[0]| == 4 && |bk[1]| == 3 && |bk[2]| == 3;
    assert NonEmpty(bk) == [bk[0]] + NonEmpty(bk[1..]);
    assert NonEmpty(bk[1..]) == [bk[1]] + NonEmpty(bk[2..]);
    assert NonEmpty(bk[2..]) == [bk[2]] + NonEmpty(bk[3..]);
  }

  /**
   * When record i is routed to shard i mod 3, the first k records fill the
   * three buckets round-robin: bucket s holds ceil((k - s) / 3) of them.
   */
  lemma {:induction false} RoundRobinSizes(items: seq<Item>, k: nat)
    requires AllRoutable(items) && k <= |items|
    requires forall i :: 0 <= i < |items| ==> ShardIndex(items[i].id, 3) == i % 3
    ensures AllRoutable(items[..k])
    ensures forall s :: 0 <= s < 3 ==> |Buckets(items[..k], 3)[s]| == (k + 2 - s) / 3
  {
    AllRoutablePrefix(items, k);
    if k > 0 {
      RoundRobinSizes(items, k - 1);
      assert items[..k][..k - 1] == items[..k - 1];
      assert items[..k][k - 1] == items[k - 1];
    }
  }
}
