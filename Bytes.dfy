/** Fixed-width integers, the network byte order used by every BPG wire format,
    and the Option type used for null pointers and failed lookups. */
module Bytes {

  /** An unsigned 8-bit value (`uint8_t`, an element of a `Uint8Array`). */
  type byte = x: int | 0 <= x < 0x100

  /** An unsigned 32-bit value (`uint32_t`, the result of `DataView.getUint32`). */
  type u32 = x: int | 0 <= x < 0x1_0000_0000

  const U32_LIMIT: nat := 0x1_0000_0000

  datatype Option<T> = None | Some(value: T)

  /** The conversion to 32 bits that `static_cast<uint32_t>` and `DataView.setUint32`
      apply to a larger count: the count modulo 2^32. */
  function Trunc32(n: nat): (r: u32)
    ensures n < U32_LIMIT ==> r == n
  {
    n % U32_LIMIT
  }

  /** The low eight bits of a number, as `DataView.setUint8` stores it. */
  function Low8(n: nat): (r: byte)
    ensures n < 0x100 ==> r == n
  {
    n % 0x100
  }

  /** `x` as four bytes, most significant first (`htonl`, `setUint32(_, x, false)`). */
  function U32BE(x: u32): seq<byte>
  {
    [x / 0x100_0000, (x / 0x1_0000) % 0x100, (x / 0x100) % 0x100, x % 0x100]
  }

  /** The big-endian 32-bit value stored at `at` (`ntohl`, `getUint32(at, false)`). */
  function ReadU32BE(b: seq<byte>, at: nat): u32
    requires at + 4 <= |b|
  {
    (b[at] as int) * 0x100_0000 + (b[at + 1] as int) * 0x1_0000
      + (b[at + 2] as int) * 0x100 + (b[at + 3] as int)
  }

  /** Reading back what was written gives the written value. */
  lemma ReadAfterWrite(x: u32, prefix: seq<byte>, suffix: seq<byte>)
    ensures |U32BE(x)| == 4
    ensures ReadU32BE(prefix + U32BE(x) + suffix, |prefix|) == x
  {
    var b := prefix + U32BE(x) + suffix;
    assert b[|prefix|..|prefix| + 4] == U32BE(x);
    U32BERecombines(x);
  }

  /** The four bytes of `U32BE(x)`, weighted by their place, add up to `x`. */
  lemma U32BERecombines(x: u32)
    ensures var e := U32BE(x);
      (e[0] as int) * 0x100_0000 + (e[1] as int) * 0x1_0000 + (e[2] as int) * 0x100 + (e[3] as int) == x
  {
    var c, lo := x / 0x1_0000, x % 0x1_0000;
    DivModOf(x, 0x100_0000, c / 0x100, (c % 0x100) * 0x1_0000 + lo);
    DivModOf(x, 0x100, c * 0x100 + lo / 0x100, lo % 0x100);
    DivModOf(c * 0x100 + lo / 0x100, 0x100, c, lo / 0x100);
  }

  /** Writing what was read reproduces the four bytes. */
  lemma WriteAfterRead(b: seq<byte>, at: nat)
    requires at + 4 <= |b|
    ensures U32BE(ReadU32BE(b, at)) == b[at..at + 4]
  {
    var b0, b1, b2, b3 := b[at] as int, b[at + 1] as int, b[at + 2] as int, b[at + 3] as int;
    var v := ReadU32BE(b, at);
    DivModOf(v, 0x100_0000, b0, b1 * 0x1_0000 + b2 * 0x100 + b3);
    DivModOf(v, 0x1_0000, b0 * 0x100 + b1, b2 * 0x100 + b3);
    DivModOf(b0 * 0x100 + b1, 0x100, b0, b1);
    DivModOf(v, 0x100, b0 * 0x1_0000 + b1 * 0x100 + b2, b3);
    DivModOf(b0 * 0x1_0000 + b1 * 0x100 + b2, 0x100, b0 * 0x100 + b1, b2);
  }

  /** Euclidean division is determined by its quotient and remainder. */
  lemma DivModOf(v: int, d: int, q: int, r: int)
    requires 0 <= r < d && v == q * d + r
    ensures v / d == q && v % d == r
  {
    var q', r' := v / d, v % d;
    assert (q - q') * d == r' - r;
    if q' < q {
      MulAtLeast(q - q', d);
    } else if q < q' {
      MulAtLeast(q' - q, d);
    }
  }

  lemma {:induction false} MulAtLeast(k: nat, d: nat)
    requires k >= 1
    ensures k * d >= d
    decreases k
  {
    if k > 1 {
      MulAtLeast(k - 1, d);
      assert k * d == (k - 1) * d + d;
    }
  }

  /** Distinct values have distinct encodings. */
  lemma U32BEInjective(x: u32, y: u32)
    requires U32BE(x) == U32BE(y)
    ensures x == y
  {
    ReadAfterWrite(x, [], []);
    ReadAfterWrite(y, [], []);
    assert [] + U32BE(x) + [] == U32BE(x);
    assert [] + U32BE(y) + [] == U32BE(y);
  }

  /** Four bytes that encode `x` are read back as `x`, wherever they stand. */
  lemma ReadU32BEAt(b: seq<byte>, at: nat, x: u32)
    requires at + 4 <= |b| && b[at..at + 4] == U32BE(x)
    ensures ReadU32BE(b, at) == x
  {
    WriteAfterRead(b, at);
    U32BEInjective(ReadU32BE(b, at), x);
  }

  /** `n` zero bytes, as `std::vector::resize` appends them. */
  function Zeros(n: nat): (r: seq<byte>)
    ensures |r| == n && forall i :: 0 <= i < n ==> r[i] == 0
  {
    seq(n, _ => 0)
  }

  /** The bytes of `s` with `bytes` copied over them at `at` (`memcpy` into a buffer). */
  function Overwrite(s: seq<byte>, at: nat, bytes: seq<byte>): (r: seq<byte>)
    requires at + |bytes| <= |s|
    ensures |r| == |s|
    ensures r[..at] == s[..at] && r[at..at + |bytes|] == bytes && r[at + |bytes|..] == s[at + |bytes|..]
  {
    s[..at] + bytes + s[at + |bytes|..]
  }

  /** The chunks of a stream put back together, in order. */
  function Concat(chunks: seq<seq<byte>>): seq<byte>
  {
    if chunks == [] then [] else chunks[0] + Concat(chunks[1..])
  }

  /** Putting chunks back together respects splitting the list of chunks. */
  lemma {:induction false} ConcatAppend(xs: seq<seq<byte>>, ys: seq<seq<byte>>)
    ensures Concat(xs + ys) == Concat(xs) + Concat(ys)
    decreases |xs|
  {
    if xs == [] {
      assert xs + ys == ys;
    } else {
      assert (xs + ys)[1..] == xs[1..] + ys;
      ConcatAppend(xs[1..], ys);
    }
  }

  /** Appending one chunk to the list appends its bytes to the stream. */
  lemma ConcatSnoc(xs: seq<seq<byte>>, x: seq<byte>)
    ensures Concat(xs + [x]) == Concat(xs) + x
  {
    ConcatAppend(xs, [x]);
    assert Concat([x]) == x + Concat([]);
  }

  /** Two copies side by side are one copy of the joined bytes. */
  lemma OverwriteAdjacent(s: seq<byte>, at: nat, x: seq<byte>, y: seq<byte>)
    requires at + |x| + |y| <= |s|
    ensures Overwrite(Overwrite(s, at, x), at + |x|, y) == Overwrite(s, at, x + y)
  {
  }
}
