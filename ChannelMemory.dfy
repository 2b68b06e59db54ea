/** The shared memory both versions of `SharedMemoryChannel` lay out: one buffer of
    16 + R2N + N2R bytes whose first 16 bytes are four 32-bit control words (R→N signal,
    R→N length, N→R signal, N→R length), followed by the renderer-to-native data region of
    R2N bytes and the native-to-renderer data region of N2R bytes. */
module ChannelMemory {
  import opened Bytes

  /** Bytes taken by the control words at the front of the buffer. */
  const CONTROL_BYTES: nat := 16

  /** `16 / (32 / 8)`: the number of 32-bit control words. */
  const CONTROL_WORDS: nat := 4

  /** Control word indices. */
  const R2N_SIGNAL: nat := 0
  const R2N_LENGTH: nat := 1
  const N2R_SIGNAL: nat := 2
  const N2R_LENGTH: nat := 3

  /** Where the renderer-to-native region starts. */
  const R2N_OFFSET: nat := CONTROL_BYTES

  /** Where the native-to-renderer region starts. */
  function N2ROffset(r2nSize: nat): nat
  {
    CONTROL_BYTES + r2nSize
  }

  /** The size of the whole shared buffer. */
  function BufferSize(r2nSize: nat, n2rSize: nat): nat
  {
    CONTROL_BYTES + r2nSize + n2rSize
  }

  /** The value an `Int32Array` element holds after storing `n`: `n` wrapped to a signed
      32-bit integer. */
  function ToInt32(n: int): (r: int)
    ensures -0x8000_0000 <= r < 0x8000_0000
    ensures -0x8000_0000 <= n < 0x8000_0000 ==> r == n
    ensures (r - n) % 0x1_0000_0000 == 0
  {
    (n + 0x8000_0000) % 0x1_0000_0000 - 0x8000_0000
  }

  /** `Uint8Array.set(src, offset)` on a view starting at `at`: the bytes of `src` are copied
      in, one by one, over the bytes at `at`; nothing else changes. */
  method CopyIn(buf: array<byte>, at: nat, src: seq<byte>)
    requires at + |src| <= buf.Length
    modifies buf
    ensures buf[..] == Overwrite(old(buf[..]), at, src)
  {
    var k := 0;
    while k < |src|
      invariant 0 <= k <= |src|
      invariant buf[..] == Overwrite(old(buf[..]), at, src[..k])
    {
      buf[at + k] := src[k];
      k := k + 1;
    }
    assert src[..k] == src;
  }
}
