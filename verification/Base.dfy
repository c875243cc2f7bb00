/** Fixed-width integers, the usual wrappers, and the few text and byte encodings
    that several components share. */
module Base {

  type u8 = x: int | 0 <= x < 0x100
  type u32 = x: int | 0 <= x < 0x1_0000_0000
  type u64 = x: int | 0 <= x < 0x1_0000_0000_0000_0000

  type Bytes = seq<u8>

  datatype Option<+T> = None | Some(value: T)

  datatype Result<+T, +E> = Ok(value: T) | Err(error: E)

  function Pow2(n: nat): (r: nat)
    ensures r >= 1
  {
    if n == 0 then 1 else 2 * Pow2(n - 1)
  }

  lemma {:induction false} Pow2Splits(m: nat, n: nat)
    ensures Pow2(m + n) == Pow2(m) * Pow2(n)
  {
    if m > 0 {
      Pow2Splits(m - 1, n);
      assert Pow2(m + n) == 2 * Pow2(m - 1 + n);
    }
  }

  lemma {:induction false} Pow2Monotone(m: nat, n: nat)
    requires m <= n
    ensures Pow2(m) <= Pow2(n)
  {
    if m < n { Pow2Monotone(m, n - 1); }
  }

  /** Little-endian layout of the low `width` bytes of `n` (`to_le_bytes`). */
  function ToLe(n: nat, width: nat): (b: Bytes)
    ensures |b| == width
  {
    if width == 0 then [] else [n % 256] + ToLe(n / 256, width - 1)
  }

  /** The number a little-endian byte string stands for (`from_le_bytes`). */
  function FromLe(b: Bytes): nat {
    if b == [] then 0 else b[0] + 256 * FromLe(b[1..])
  }

  /** A number that fits the width is read back unchanged. */
  lemma {:induction false} LeRoundTrip(n: nat, width: nat)
    requires n < Pow2(8 * width)
    ensures FromLe(ToLe(n, width)) == n
  {
    if width > 0 {
      Pow2Splits(8, 8 * (width - 1));
      Pow2Byte();
      LeRoundTrip(n / 256, width - 1);
      assert ToLe(n, width)[1..] == ToLe(n / 256, width - 1);
    }
  }

  /** Whatever was laid out, what is read back fits the width. */
  lemma {:induction false} LeBounded(b: Bytes)
    ensures FromLe(b) < Pow2(8 * |b|)
  {
    if b != [] {
      LeBounded(b[1..]);
      Pow2Splits(8, 8 * (|b| - 1));
      Pow2Byte();
    }
  }

  lemma Pow2Byte()
    ensures Pow2(8) == 256
  {
    assert Pow2(4) == 16;
    Pow2Splits(4, 4);
  }

  lemma Pow2Of16()
    ensures Pow2(16) == 0x1_0000
  {
    hide Pow2;
    Pow2Byte();
    Pow2Splits(8, 8);
  }

  lemma Pow2Of32()
    ensures Pow2(32) == 0x1_0000_0000
  {
    hide Pow2;
    Pow2Of16();
    Pow2Splits(16, 16);
  }

  lemma Pow2Of64()
    ensures Pow2(64) == 0x1_0000_0000_0000_0000
  {
    hide Pow2;
    Pow2Of32();
    Pow2Splits(32, 32);
  }

  function Members<K(==)>(q: seq<K>): set<K> { set i | 0 <= i < |q| :: q[i] }

  ghost predicate Distinct<K>(q: seq<K>) { forall i, j | 0 <= i < j < |q| :: q[i] != q[j] }

  lemma MembersSnoc<K>(q: seq<K>, k: K)
    ensures Members(q + [k]) == Members(q) + {k}
    ensures k !in Members(q) && Distinct(q) ==> Distinct(q + [k])
  {
    forall i | 0 <= i < |q| ensures q[i] in Members(q + [k]) && q[i] in Members(q) { assert (q + [k])[i] == q[i]; }
    assert (q + [k])[|q|] == k;
  }
}
