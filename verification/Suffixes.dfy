/** The suffixes of a text by their start: how they compare, and how many
    bytes two of them share. */
module Suffixes {
  import opened BitSeq

  type Text = seq<Byte>

  /** Suffix `x` sorts before suffix `y` at a byte both have. */
  predicate Less(t: Text, x: nat, y: nat)
    decreases |t| - x
  {
    x < |t| && y < |t| && (t[x] < t[y] || (t[x] == t[y] && Less(t, x + 1, y + 1)))
  }

  /** The first `k` bytes are the same. */
  predicate Shared(t: Text, x: nat, y: nat, k: nat)
    decreases k
  {
    k == 0 || (x < |t| && y < |t| && t[x] == t[y] && Shared(t, x + 1, y + 1, k - 1))
  }

  /** The shared bytes of `x` and an earlier `y`, `x`'s below `limit`. */
  function Lcp(t: Text, x: nat, y: nat, limit: nat): (k: nat)
    requires y <= x <= limit <= |t|
    ensures x + k <= limit
    decreases limit - x
  {
    if x < limit && t[x] == t[y] then 1 + Lcp(t, x + 1, y + 1, limit) else 0
  }

  lemma {:induction false} LessAsymmetric(t: Text, x: nat, y: nat)
    requires Less(t, x, y)
    ensures !Less(t, y, x)
    decreases |t| - x
  {
    if t[x] == t[y] {
      LessAsymmetric(t, x + 1, y + 1);
    }
  }

  lemma {:induction false} LessTransitive(t: Text, x: nat, y: nat, z: nat)
    requires Less(t, x, y) && Less(t, y, z)
    ensures Less(t, x, z)
    decreases |t| - x
  {
    if t[x] == t[y] == t[z] {
      LessTransitive(t, x + 1, y + 1, z + 1);
    }
  }

  /** What sorts between two suffixes shares what both share with a third. */
  lemma {:induction false} Sandwich(t: Text, a: nat, z: nat, b: nat, c: nat, k: nat)
    requires Less(t, a, z) && Less(t, z, b) && Shared(t, a, c, k) && Shared(t, b, c, k)
    ensures Shared(t, z, c, k)
    decreases k
  {
    if k > 0 {
      Sandwich(t, a + 1, z + 1, b + 1, c + 1, k - 1);
    }
  }

  /** The farther in the order, the less is shared. */
  lemma {:induction false} FartherShares(t: Text, z: nat, m: nat, c: nat, limit: nat)
    requires z <= c && m <= c <= limit <= |t|
    requires (Less(t, z, m) && Less(t, m, c)) || (Less(t, c, m) && Less(t, m, z))
    ensures Lcp(t, c, z, limit) <= Lcp(t, c, m, limit)
    decreases limit - c
  {
    if c < limit && t[z] == t[c] {
      FartherShares(t, z + 1, m + 1, c + 1, limit);
    }
  }

  lemma {:induction false} SharedFewer(t: Text, x: nat, y: nat, k: nat, n: nat)
    requires Shared(t, x, y, n) && k <= n
    ensures Shared(t, x, y, k)
    decreases k
  {
    if k > 0 {
      SharedFewer(t, x + 1, y + 1, k - 1, n - 1);
    }
  }

  /** Counting may start after bytes known to be shared. */
  lemma {:induction false} LcpAfter(t: Text, x: nat, y: nat, limit: nat, k: nat)
    requires y <= x && x + k <= limit <= |t| && Shared(t, y, x, k)
    ensures Lcp(t, x, y, limit) == k + Lcp(t, x + k, y + k, limit)
    decreases k
  {
    if k > 0 {
      LcpAfter(t, x + 1, y + 1, limit, k - 1);
    }
  }

  lemma {:induction false} LcpShared(t: Text, x: nat, y: nat, limit: nat)
    requires y <= x <= limit <= |t|
    ensures Shared(t, y, x, Lcp(t, x, y, limit))
    decreases limit - x
  {
    if x < limit && t[x] == t[y] {
      LcpShared(t, x + 1, y + 1, limit);
    }
  }

  /** The byte after the shared ones decides the order. */
  lemma {:induction false} LcpDecides(t: Text, x: nat, y: nat, limit: nat)
    requires y < x <= limit <= |t| && x + Lcp(t, x, y, limit) < limit
    ensures var k := Lcp(t, x, y, limit);
            if t[y + k] < t[x + k] then Less(t, y, x) else Less(t, x, y)
    decreases limit - x
  {
    if t[x] == t[y] {
      LcpDecides(t, x + 1, y + 1, limit);
    }
  }
}
