/**
 Shared vocabulary: bytes, options, and the machine limits the Rust code relies on.
 */
module Base {

  newtype byte = x: int | 0 <= x < 256

  type Bytes = seq<byte>

  datatype Option<+T> = None | Some(value: T)

  const CR: byte := 13
  const LF: byte := 10
  const CRLF: Bytes := [13, 10]

  // RESP2 type bytes shared by both directions.
  const STAR: byte := 42
  const DOLLAR: byte := 36

  // 64-bit targets: usize and u64 share one maximum.
  const USIZE_MAX: nat := 0xFFFF_FFFF_FFFF_FFFF
  const WORD: nat := 0x1_0000_0000_0000_0000
  const I64_MAX: int := 0x7FFF_FFFF_FFFF_FFFF
  // No Rust slice, Vec or Arc<[u8]> is longer than this.
  const ISIZE_MAX: nat := 0x7FFF_FFFF_FFFF_FFFF

  const NANOS_PER_SEC: nat := 1_000_000_000
  // The last point in time an `Instant` (signed 64-bit seconds plus nanoseconds) can hold.
  const INSTANT_MAX: nat := 9_223_372_036_854_775_807_999_999_999

  function Min(a: int, b: int): int {
    if a <= b then a else b
  }

  function Concat(parts: seq<Bytes>): Bytes {
    if parts == [] then [] else parts[0] + Concat(parts[1..])
  }

  lemma Assoc<T>(a: seq<T>, b: seq<T>, c: seq<T>)
    ensures (a + b) + c == a + (b + c)
  {
  }

  lemma Slices<T>(a: seq<T>, b: seq<T>, c: seq<T>)
    ensures (a + b + c)[..|a|] == a && (a + b + c)[|a| + |b|..] == c
    ensures forall k :: 0 <= k < |b| ==> (a + b + c)[|a| + k] == b[k]
  {
  }

  function DropAt<T>(s: seq<T>, p: nat): seq<T>
    requires p < |s|
  {
    s[..p] + s[p + 1..]
  }

  // Named, so that the verifier compares two positions only where a proof asks for it.
  predicate Differ(s: seq<nat>, i: nat, j: nat)
    requires i < |s| && j < |s|
  {
    s[i] != s[j]
  }

  predicate NoRepeats(s: seq<nat>) {
    forall i, j :: 0 <= i < j < |s| ==> Differ(s, i, j)
  }

  lemma Apart(s: seq<nat>, i: nat, j: nat)
    requires NoRepeats(s) && i < |s| && j < |s| && i != j
    ensures s[i] != s[j]
  {
    assert i < j ==> Differ(s, i, j);
    assert j < i ==> Differ(s, j, i);
  }

  lemma AppendNoRepeats(s: seq<nat>, x: nat)
    requires NoRepeats(s) && x !in s
    ensures NoRepeats(s + [x])
  {
    var t := s + [x];
    forall i, j | 0 <= i < j < |t| ensures Differ(t, i, j) {
      if j < |s| {
        assert Differ(s, i, j);
      }
    }
  }

  lemma SliceNoRepeats(s: seq<nat>, lo: nat, hi: nat)
    requires NoRepeats(s) && lo <= hi <= |s|
    ensures NoRepeats(s[lo..hi])
  {
    var t := s[lo..hi];
    forall i, j | 0 <= i < j < |t| ensures Differ(t, i, j) {
      assert Differ(s, lo + i, lo + j);
    }
  }

  // A name to hang a definition on: `forall n :: Unfold(n) ==> P` is P, opened only where a proof says
  // `assert Unfold(0)`.
  predicate Unfold(n: nat) {
    true
  }

  // Sum of f over a sequence, and how one update moves it: what the threads, borrowers or connections
  // of a state machine hold together.
  function SumBy<T>(f: T -> nat, s: seq<T>): nat {
    if s == [] then 0 else f(s[0]) + SumBy(f, s[1..])
  }

  lemma {:induction false} SumByUpdate<T>(f: T -> nat, s: seq<T>, i: nat, x: T)
    requires i < |s|
    ensures SumBy(f, s[i := x]) + f(s[i]) == SumBy(f, s) + f(x)
  {
    if i == 0 {
      assert s[0 := x][1..] == s[1..];
    } else {
      assert s[i := x][1..] == s[1..][i - 1 := x];
      SumByUpdate(f, s[1..], i - 1, x);
    }
  }

  lemma {:induction false} SumBySnoc<T>(f: T -> nat, s: seq<T>, x: T)
    ensures SumBy(f, s + [x]) == SumBy(f, s) + f(x)
  {
    if s == [] {
      assert (s + [x])[1..] == [];
    } else {
      assert (s + [x])[1..] == s[1..] + [x];
      SumBySnoc(f, s[1..], x);
    }
  }

  lemma {:induction false} SumByAtLeast<T>(f: T -> nat, s: seq<T>, i: nat)
    requires i < |s|
    ensures f(s[i]) <= SumBy(f, s)
  {
    if i > 0 {
      SumByAtLeast(f, s[1..], i - 1);
    }
  }

  lemma {:induction false} SumByZero<T>(f: T -> nat, s: seq<T>)
    requires forall i :: 0 <= i < |s| ==> f(s[i]) == 0
    ensures SumBy(f, s) == 0
  {
    if s != [] {
      SumByZero(f, s[1..]);
    }
  }
}
