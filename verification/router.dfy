/**
 * The router of `ShardingService.getShardIndex`: an id is read as a
 * hexadecimal number and reduced modulo the shard count.
 */
module Router {
  import opened Hex

  /** The shard responsible for `id` among `shardCount` shards. */
  function ShardIndex(id: string, shardCount: nat): (r: nat)
    requires IsHexString(id) && shardCount >= 1
    ensures r < shardCount
  {
    HexValue(id) % shardCount
  }

  /**
   * Reference router that never forms a number wider than 16 * shardCount:
   * the remainder is carried digit by digit.
   */
  function Residue(s: string, shardCount: nat): (r: nat)
    requires AllHexDigits(s) && shardCount >= 1
    ensures r < shardCount
  {
    if |s| == 0 then 0
    else (Residue(s[..|s| - 1], shardCount) * 16 + DigitValue(s[|s| - 1])) % shardCount
  }

  /** The remainder of a = q*n + r with 0 <= r < n is r. */
  lemma ModUnique(a: int, n: int, q: int, r: int)
    requires n > 0 && 0 <= r < n && a == q * n + r
    ensures a % n == r
  {
    var q0, r0 := a / n, a % n;
    assert a == q0 * n + r0;
    assert (q - q0) * n == q * n - q0 * n;
    assert (q - q0) * n == r0 - r;
    if q > q0 {
      AtLeastOneMultiple(q - q0, n);
    } else if q < q0 {
      AtLeastOneMultiple(q0 - q, n);
    }
  }

  lemma AtLeastOneMultiple(k: int, n: int)
    requires k >= 1 && n > 0
    ensures k * n >= n
  {
    assert k * n == (k - 1) * n + n;
  }

  /** Only the remainder of the digits read so far matters. */
  lemma ModStep(a: nat, d: nat, n: nat)
    requires n >= 1
    ensures (a * 16 + d) % n == ((a % n) * 16 + d) % n
  {
    var q, r := a / n, a % n;
    var b := r * 16 + d;
    var q2, r2 := b / n, b % n;
    assert a * 16 + d == (q * 16 + q2) * n + r2;
    ModUnique(a * 16 + d, n, q * 16 + q2, r2);
  }

  /** The digit-by-digit router agrees with the router on every id. */
  lemma {:induction false} ResidueIsShardIndex(id: string, shardCount: nat)
    requires AllHexDigits(id) && shardCount >= 1
    ensures Residue(id, shardCount) == HexValue(id) % shardCount
  {
    if |id| > 0 {
      var p := id[..|id| - 1];
      assert AllHexDigits(p);
      var h, v := HexValue(p), DigitValue(id[|id| - 1]);
      assert HexValue(id) == h * 16 + v;
      assert Residue(id, shardCount) == (Residue(p, shardCount) * 16 + v) % shardCount;
      ResidueIsShardIndex(p, shardCount);
      ModStep(h, v, shardCount);
    }
  }

  /** Routing is determined by the id's numeric value, not its spelling. */
  lemma SameValueSameShard(a: string, b: string, shardCount: nat)
    requires IsHexString(a) && IsHexString(b) && shardCount >= 1
    requires HexValue(a) == HexValue(b)
    ensures ShardIndex(a, shardCount) == ShardIndex(b, shardCount)
  {
  }

  /** "0f" and "f" route to the same shard. */
  lemma LeadingZeroSameShard(id: string, shardCount: nat)
    requires IsHexString(id) && shardCount >= 1
    ensures IsHexString("0" + id)
    ensures ShardIndex("0" + id, shardCount) == ShardIndex(id, shardCount)
  {
    LeadingZeroIgnored(id);
    SameValueSameShard("0" + id, id, shardCount);
  }

  /** "AB" and "ab" route to the same shard. */
  lemma CaseInsensitiveShard(id: string, shardCount: nat)
    requires IsHexString(id) && shardCount >= 1
    ensures IsHexString(LowerHex(id))
    ensures ShardIndex(LowerHex(id), shardCount) == ShardIndex(id, shardCount)
  {
    HexValueIgnoresCase(id);
    SameValueSameShard(LowerHex(id), id, shardCount);
  }

  /**
   * An id whose value is below the shard count lands on the shard with that
   * number, so small ids cluster in the low shards.
   */
  lemma SmallIdsClusterLow(id: string, shardCount: nat)
    requires IsHexString(id) && shardCount >= 1
    requires HexValue(id) < shardCount
    ensures ShardIndex(id, shardCount) == HexValue(id)
  {
    ModUnique(HexValue(id), shardCount, 0, HexValue(id));
  }

  /** Ids "1", "2", "3" over three shards route to 1, 2 and 0. */
  lemma RouterExamples()
    ensures ShardIndex("1", 3) == 1
    ensures ShardIndex("2", 3) == 2
    ensures ShardIndex("3", 3) == 0
    ensures ShardIndex("10", 3) == 1
    ensures ShardIndex("ff", 4) == 3
  {
    assert "10"[..1] == "1";
    assert "ff"[..1] == "f";
  }
}
