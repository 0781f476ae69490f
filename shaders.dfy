/**
 * The shader binary as 32-bit words (src/app/shaders.rs).
 *
 * A SPIR-V module is a stream of 32-bit words (section 2.3 of the SPIR-V
 * specification).  `SHADER_MODULE_BIN` is computed at compile time from the
 * embedded byte string: each group of four bytes becomes one word with
 * `u32::from_ne_bytes`.  The byte order is the target's; the model fixes it to
 * little-endian.
 */
module Shaders {

  /** `u32::from_ne_bytes([b0, b1, b2, b3])` on a little-endian target. */
  function WordOf(b0: bv8, b1: bv8, b2: bv8, b3: bv8): bv32 {
    (b0 as bv32) | ((b1 as bv32) << 8) | ((b2 as bv32) << 16) | ((b3 as bv32) << 24)
  }

  /** Byte `k` (0 is the least significant) of a word: `u32::to_ne_bytes(w)[k]`. */
  function ByteOf(w: bv32, k: nat): bv8
    requires k < 4
  {
    if k == 0 then (w & 0xFF) as bv8
    else if k == 1 then ((w >> 8) & 0xFF) as bv8
    else if k == 2 then ((w >> 16) & 0xFF) as bv8
    else (w >> 24) as bv8
  }

  /** Splitting a word back into its bytes gives the bytes it was made of. */
  lemma ByteOfWordOf(b0: bv8, b1: bv8, b2: bv8, b3: bv8)
    ensures ByteOf(WordOf(b0, b1, b2, b3), 0) == b0
    ensures ByteOf(WordOf(b0, b1, b2, b3), 1) == b1
    ensures ByteOf(WordOf(b0, b1, b2, b3), 2) == b2
    ensures ByteOf(WordOf(b0, b1, b2, b3), 3) == b3
  {
  }

  /** Putting a word's bytes back together gives the word. */
  lemma WordOfByteOf(w: bv32)
    ensures WordOf(ByteOf(w, 0), ByteOf(w, 1), ByteOf(w, 2), ByteOf(w, 3)) == w
  {
  }

  /** The words of a byte string whose length is a multiple of four: word `i` is made of bytes `4i .. 4i+3`. */
  function Pack(raw: seq<bv8>): (words: seq<bv32>)
    requires |raw| % 4 == 0
    ensures |words| == |raw| / 4
  {
    seq(|raw| / 4, i requires 0 <= i < |raw| / 4 =>
      WordOf(raw[4 * i], raw[4 * i + 1], raw[4 * i + 2], raw[4 * i + 3]))
  }

  /** The bytes of a word stream, each word's least significant byte first. */
  function Unpack(words: seq<bv32>): (raw: seq<bv8>)
    ensures |raw| == 4 * |words|
  {
    seq(4 * |words|, n requires 0 <= n < 4 * |words| => ByteOf(words[n / 4], n % 4))
  }

  /** No byte is dropped or moved: unpacking the packed words gives back the bytes. */
  lemma UnpackPack(raw: seq<bv8>)
    requires |raw| % 4 == 0
    ensures Unpack(Pack(raw)) == raw
  {
    var words := Pack(raw);
    var back := Unpack(words);
    forall n | 0 <= n < |raw|
      ensures back[n] == raw[n]
    {
      var i, k := n / 4, n % 4;
      assert n == 4 * i + k;
      ByteOfWordOf(raw[4 * i], raw[4 * i + 1], raw[4 * i + 2], raw[4 * i + 3]);
    }
  }

  /** And packing the bytes of any word stream gives back the words. */
  lemma PackUnpack(words: seq<bv32>)
    ensures |Unpack(words)| % 4 == 0
    ensures Pack(Unpack(words)) == words
  {
    var raw := Unpack(words);
    var again := Pack(raw);
    forall i | 0 <= i < |words|
      ensures again[i] == words[i]
    {
      assert raw[4 * i] == ByteOf(words[i], 0);
      assert raw[4 * i + 1] == ByteOf(words[i], 1);
      assert raw[4 * i + 2] == ByteOf(words[i], 2);
      assert raw[4 * i + 3] == ByteOf(words[i], 3);
      WordOfByteOf(words[i]);
    }
  }

  /**
   * The `SHADER_MODULE_BIN` const block: `assert!(RAW_BYTES_LEN == U32_BYTES * 4)`
   * stops compilation unless the length is a multiple of four; then a zeroed buffer
   * of `RAW_BYTES_LEN / 4` words is filled one index at a time.
   */
  method ShaderModuleBin(rawBytes: seq<bv8>) returns (u32Buffer: array<bv32>)
    requires |rawBytes| == (|rawBytes| / 4) * 4
    ensures u32Buffer[..] == Pack(rawBytes)
  {
    var u32Bytes := |rawBytes| / 4;
    u32Buffer := new bv32[u32Bytes](_ => 0);
    var idx := 0;
    while idx < u32Bytes
      invariant 0 <= idx <= u32Bytes
      invariant forall i :: 0 <= i < idx ==>
        u32Buffer[i] == WordOf(rawBytes[4 * i], rawBytes[4 * i + 1], rawBytes[4 * i + 2], rawBytes[4 * i + 3])
    {
      var chunkIdx := idx * 4;
      u32Buffer[idx] := WordOf(rawBytes[chunkIdx + 0], rawBytes[chunkIdx + 1], rawBytes[chunkIdx + 2], rawBytes[chunkIdx + 3]);
      idx := idx + 1;
    }
    assert u32Buffer[..] == Pack(rawBytes);
  }
}
