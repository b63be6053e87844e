/**
 Power-of-two shard counts: masking picks a shard and scans them round-robin
 (hkv-engine/src/memory.rs, shard_index, evict_if_needed and normalize_shard_count).
 */
module Masking {
  import opened Base

  function Pow2(k: nat): (r: nat)
    ensures r >= 1
  {
    if k == 0 then 1 else 2 * Pow2(k - 1)
  }

  // Bitwise and.
  function And(a: nat, b: nat): (r: nat)
    ensures r <= b
  {
    if a == 0 || b == 0 then 0 else 2 * And(a / 2, b / 2) + (if a % 2 == 1 && b % 2 == 1 then 1 else 0)
  }

  // `mask` is 2^k - 1; the bits above it are what masking drops.
  lemma {:induction false} MaskSplits(a: nat, k: nat, mask: nat) returns (q: nat)
    requires mask + 1 == Pow2(k)
    ensures a == Pow2(k) * q + And(a, mask)
    decreases k
  {
    if k == 0 {
      q := a;
    } else {
      q := MaskSplits(a / 2, k - 1, mask / 2);
      AndOdd(a, mask);
      Recombine(a, Pow2(k - 1), q, And(a / 2, mask / 2));
    }
  }

  lemma AndOdd(a: nat, m: nat)
    requires m % 2 == 1
    ensures And(a, m) == 2 * And(a / 2, m / 2) + a % 2
  {
  }

  lemma Recombine(a: nat, half: nat, q: nat, r: nat)
    requires a / 2 == half * q + r
    ensures a == (2 * half) * q + (2 * r + a % 2)
  {
    MulSwap(2, half, q);
  }

  // Masking with 2^k - 1 is the remainder modulo 2^k.
  lemma MaskIsMod(a: nat, k: nat)
    ensures And(a, Pow2(k) - 1) == a % Pow2(k)
  {
    var q := MaskSplits(a, k, Pow2(k) - 1);
    ModIs(a, Pow2(k), q, And(a, Pow2(k) - 1));
  }

  lemma DivMod(a: nat, n: nat)
    requires n >= 1
    ensures a == n * (a / n) + a % n && a % n < n
  {
  }

  // A quotient and a small enough remainder are the quotient and the remainder.
  lemma ModIs(a: nat, n: nat, q: int, r: nat)
    requires n >= 1 && a == n * q + r && r < n
    ensures a % n == r
  {
    DivMod(a, n);
    var d := q - a / n;
    MulSub(n, q, a / n);
    if d >= 1 {
      MulAtLeast(n, d);
      assert false;
    } else if d <= -1 {
      MulAtLeast(n, -d);
      MulSub(n, 0, d);
      assert false;
    }
  }

  lemma MulSub(n: int, a: int, b: int)
    ensures n * (a - b) == n * a - n * b
  {
  }

  lemma MulAtLeast(n: nat, d: int)
    requires d >= 1
    ensures n * d >= n
  {
  }

  lemma MulSwap(a: int, b: int, c: int)
    ensures (a * b) * c == a * (b * c)
  {
  }

  lemma {:induction false} Pow2Divides(k: nat, m: nat)
    requires k <= m
    ensures Pow2(m) % Pow2(k) == 0 && Pow2(m) == Pow2(k) * Pow2(m - k)
  {
    Pow2Add(k, m - k);
    ModIs(Pow2(m), Pow2(k), Pow2(m - k), 0);
  }

  lemma {:induction false} Pow2Add(a: nat, b: nat)
    ensures Pow2(a + b) == Pow2(a) * Pow2(b)
  {
    if a > 0 {
      Pow2Add(a - 1, b);
      assert 2 * (Pow2(a - 1) * Pow2(b)) == (2 * Pow2(a - 1)) * Pow2(b);
    }
  }

  lemma WordIsPow2()
    ensures Pow2(64) == WORD
  {
    assert Pow2(4) == 16;
    Pow2Add(4, 4);
    Pow2Add(8, 8);
    Pow2Add(16, 16);
    Pow2Add(32, 32);
  }

  const HALF_WORD: nat := 0x8000_0000_0000_0000

  lemma HalfWordIsPow2()
    ensures Pow2(63) == HALF_WORD
  {
    WordIsPow2();
    assert Pow2(64) == 2 * Pow2(63);
  }

  // The shard the scan visits at `offset`, starting from `start`; the sum wraps like a usize.
  function Visited(start: nat, offset: nat, mask: nat): nat {
    And((start + offset) % WORD, mask)
  }

  // A remainder modulo a multiple of n does not change the remainder modulo n.
  lemma ModOfMod(x: nat, n: nat, m: nat)
    requires n >= 1 && m >= 1 && n * m >= 1
    ensures (x % (n * m)) % n == x % n
  {
    var w := n * m;
    DivMod(x, w);
    DivMod(x % w, n);
    MulSwap(n, m, x / w);
    var a, b := m * (x / w), (x % w) / n;
    MulSub(n, a, -b);
    MulSub(n, 0, b);
    ModIs(x, n, a + b, (x % w) % n);
  }

  lemma VisitedIsMod(start: nat, offset: nat, k: nat)
    requires k <= 64
    ensures Visited(start, offset, Pow2(k) - 1) == (start + offset) % Pow2(k)
  {
    MaskIsMod((start + offset) % WORD, k);
    WordIsPow2();
    Pow2Divides(k, 64);
    ModOfMod(start + offset, Pow2(k), Pow2(64 - k));
  }

  // The offset at which a scan from `start` visits shard `i`.
  function OffsetOf(start: nat, i: nat, n: nat): nat
    requires i < n
  {
    if start % n <= i then i - start % n else i + n - start % n
  }

  lemma SumMod(start: nat, offset: nat, n: nat)
    requires offset < n
    ensures (start + offset) % n == if start % n + offset < n then start % n + offset else start % n + offset - n
  {
    var q, r := start / n, start % n;
    DivMod(start, n);
    if r + offset < n {
      ModIs(start + offset, n, q, r + offset);
    } else {
      MulSub(n, q, -1);
      ModIs(start + offset, n, q + 1, r + offset - n);
    }
  }

  // A scan over all offsets below the shard count visits every shard exactly once.
  lemma ScanVisitsEachOnce(start: nat, i: nat, k: nat, offset: nat)
    requires k <= 64 && i < Pow2(k) && offset < Pow2(k)
    ensures OffsetOf(start, i, Pow2(k)) < Pow2(k)
    ensures Visited(start, offset, Pow2(k) - 1) == i <==> offset == OffsetOf(start, i, Pow2(k))
  {
    VisitedIsMod(start, offset, k);
    SumMod(start, offset, Pow2(k));
    DivMod(start, Pow2(k));
  }

  // normalize_shard_count: the least power of two that is at least `count` and at least one.
  function NextPow2(count: nat, k: nat): (r: nat)
    requires k <= 63 && (k == 0 || Pow2(k - 1) < count) && count <= HALF_WORD
    ensures r <= 63 && Pow2(r) >= count && (r == 0 || Pow2(r - 1) < count)
    decreases 63 - k
  {
    HalfWordIsPow2();
    if Pow2(k) >= count || k == 63 then k else NextPow2(count, k + 1)
  }

  // In a release build next_power_of_two wraps to zero when there is none below 2^64.
  function NormalizeShardCount(count: nat): (n: nat)
    requires count <= USIZE_MAX
    ensures count <= HALF_WORD ==> (exists k :: 0 <= k <= 63 && n == Pow2(k)) && n >= count && n >= 1
    ensures count > HALF_WORD ==> n == 0
  {
    if count > HALF_WORD then 0 else Pow2(NextPow2(count, 0))
  }

  lemma LeastPow2(count: nat, k: nat, j: nat)
    requires count <= Pow2(j) && (k == 0 || Pow2(k - 1) < count)
    ensures Pow2(k) <= Pow2(j)
  {
    if j < k {
      Pow2Monotone(j, k - 1);
    } else {
      Pow2Monotone(k, j);
    }
  }

  // No smaller power of two would do.
  lemma NormalizedIsLeast(count: nat, j: nat)
    requires count <= HALF_WORD && count <= Pow2(j)
    ensures NormalizeShardCount(count) <= Pow2(j)
  {
    LeastPow2(count, NextPow2(count, 0), j);
  }

  lemma {:induction false} Pow2Monotone(a: nat, b: nat)
    requires a <= b
    ensures Pow2(a) <= Pow2(b)
    decreases b - a
  {
    if a < b {
      Pow2Monotone(a, b - 1);
    }
  }
}
