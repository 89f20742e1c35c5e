// Shared vocabulary of the model: fixed-width integers, optional and
// fallible results, little-endian field decoding and byte-addressed memory.

module Words {

  /** 2^64: one more than the largest u64 / usize value. */
  const U64_LIMIT: int := 0x1_0000_0000_0000_0000

  /** 2^32, the split point of an ELF64 `r_info` word. */
  const U32_LIMIT: int := 0x1_0000_0000

  type u8 = x: int | 0 <= x < 256

  type u64 = x: int | 0 <= x < U64_LIMIT

  datatype Option<T> = None | Some(value: T)

  datatype Result<T, E> = Ok(value: T) | Err(error: E)

  /** `x & !0xF`: round down to a multiple of 16. */
  function AlignDown16(x: int): (r: int)
    ensures r <= x && x - r < 16 && r % 16 == 0
  {
    x - x % 16
  }

  /** The unsigned integer whose little-endian bytes are `bytes`. */
  function LittleEndian(bytes: seq<u8>): (r: nat)
    ensures r < Pow256(|bytes|)
  {
    if |bytes| == 0 then 0 else bytes[0] + 0x100 * LittleEndian(bytes[1..])
  }

  /** `256^n`, the number of values `n` bytes can hold. */
  function Pow256(n: nat): nat
  {
    if n == 0 then 1 else 0x100 * Pow256(n - 1)
  }

  /** The little-endian u16 at `data[off..off + 2]`. */
  function U16At(data: seq<u8>, off: nat): (r: nat)
    requires off + 2 <= |data|
    ensures r < 0x1_0000
  {
    LittleEndian(data[off..off + 2])
  }

  /** The little-endian u32 at `data[off..off + 4]`. */
  function U32At(data: seq<u8>, off: nat): (r: nat)
    requires off + 4 <= |data|
    ensures r < 0x1_0000_0000
  {
    assert Pow256(2) == 0x1_0000 && Pow256(4) == 0x1_0000 * Pow256(2);
    LittleEndian(data[off..off + 4])
  }

  /** The little-endian u64 at `data[off..off + 8]`. */
  function U64At(data: seq<u8>, off: nat): (r: nat)
    requires off + 8 <= |data|
    ensures r < U64_LIMIT
  {
    assert Pow256(4) == 0x1_0000_0000 && Pow256(8) == 0x1_0000 * Pow256(6) && Pow256(6) == 0x1_0000 * Pow256(4);
    LittleEndian(data[off..off + 8])
  }

  /**
   * Memory after storing `src` at `dst` (a `copy_nonoverlapping` into
   * byte-addressed memory): the bytes `[dst, dst + |src|)` hold `src`,
   * every other byte is unchanged.
   */
  function StoreBytes(mem: map<int, u8>, dst: int, src: seq<u8>): map<int, u8>
    decreases |src|
  {
    if |src| == 0 then mem else StoreBytes(mem[dst := src[0]], dst + 1, src[1..])
  }

  /** After `StoreBytes`, `[dst, dst + |src|)` holds `src` and nothing else has changed. */
  lemma {:induction false} StoreBytesEffect(mem: map<int, u8>, dst: int, src: seq<u8>)
    ensures forall a :: a in StoreBytes(mem, dst, src) <==> a in mem || dst <= a < dst + |src|
    ensures forall a :: dst <= a < dst + |src| ==> StoreBytes(mem, dst, src)[a] == src[a - dst]
    ensures forall a :: a in mem && !(dst <= a < dst + |src|) ==> StoreBytes(mem, dst, src)[a] == mem[a]
    decreases |src|
  {
    if |src| > 0 {
      StoreBytesEffect(mem[dst := src[0]], dst + 1, src[1..]);
    }
  }

  lemma AppendAssoc<T>(a: seq<T>, b: seq<T>, c: seq<T>)
    ensures (a + b) + c == a + (b + c)
  {
  }

  /** `n` zero bytes (the operand of a `write_bytes(_, 0, n)`). */
  function Zeros(n: nat): (z: seq<u8>)
    ensures |z| == n && forall k :: 0 <= k < n ==> z[k] == 0
  {
    seq(n, _ => 0)
  }

  /** A quotient is determined by any quotient-remainder decomposition. */
  lemma DivUnique(x: int, d: int, q: int, r: int)
    requires d > 0 && 0 <= r < d && x == q * d + r
    ensures x / d == q
  {
    var q0 := x / d;
    if q0 < q {
      MulGrows(q - q0, d);
    } else if q < q0 {
      MulGrows(q0 - q, d);
    }
  }

  lemma MulGrows(k: int, d: int)
    requires k >= 1 && d > 0
    ensures k * d >= d
  {
  }

  lemma MulLe(x: int, y: int, a: int)
    requires 0 <= x <= y && a > 0
    ensures x * a <= y * a
  {
  }

  /** Dividing by `a` and then by `b` is dividing by `a * b` (a right shift by two amounts in turn). */
  lemma DivDiv(x: int, a: int, b: int)
    requires x >= 0 && a > 0 && b > 0
    ensures x / (a * b) == x / a / b
  {
    var q, r := x / a, x % a;
    var q2, r2 := q / b, q % b;
    assert r2 * a + r < a * b by {
      MulLe(r2, b - 1, a);
      assert (b - 1) * a == a * b - a;
    }
    assert x == q2 * (a * b) + (r2 * a + r);
    DivUnique(x, a * b, q2, r2 * a + r);
  }
}
