/**
 Bytes and the fixed-width integers the wire formats are made of. `to_be_bytes`,
 `from_be_bytes` and their little-endian twins, for 32 and 64 bits.
 */
module Bytes {
  newtype byte = x: int | 0 <= x < 256

  const U32: nat := 0x1_0000_0000
  const U64: nat := 0x1_0000_0000_0000_0000

  /** The low `width` bytes of `n`, least significant first. */
  function LittleEndian(n: nat, width: nat): (bytes: seq<byte>)
    ensures |bytes| == width
  {
    if width == 0 then [] else [(n % 256) as byte] + LittleEndian(n / 256, width - 1)
  }

  function FromLittleEndian(bytes: seq<byte>): nat {
    if bytes == [] then 0 else bytes[0] as nat + 256 * FromLittleEndian(bytes[1..])
  }

  /** The low `width` bytes of `n`, most significant first. */
  function BigEndian(n: nat, width: nat): (bytes: seq<byte>)
    ensures |bytes| == width
  {
    if width == 0 then [] else BigEndian(n / 256, width - 1) + [(n % 256) as byte]
  }

  function FromBigEndian(bytes: seq<byte>): nat {
    if bytes == [] then 0 else 256 * FromBigEndian(bytes[..|bytes| - 1]) + bytes[|bytes| - 1] as nat
  }

  function Power256(width: nat): (p: nat)
    ensures p > 0
  {
    if width == 0 then 1 else 256 * Power256(width - 1)
  }

  lemma {:induction false} LittleEndianReadsBack(n: nat, width: nat)
    requires n < Power256(width)
    ensures FromLittleEndian(LittleEndian(n, width)) == n
  {
    if width > 0 {
      LittleEndianReadsBack(n / 256, width - 1);
      assert LittleEndian(n, width)[1..] == LittleEndian(n / 256, width - 1);
    }
  }

  lemma {:induction false} BigEndianReadsBack(n: nat, width: nat)
    requires n < Power256(width)
    ensures FromBigEndian(BigEndian(n, width)) == n
  {
    if width > 0 {
      BigEndianReadsBack(n / 256, width - 1);
      assert BigEndian(n, width)[..width - 1] == BigEndian(n / 256, width - 1);
    }
  }

  lemma {:induction false} BigEndianOfRead(bytes: seq<byte>)
    ensures FromBigEndian(bytes) < Power256(|bytes|)
    ensures BigEndian(FromBigEndian(bytes), |bytes|) == bytes
  {
    if bytes != [] {
      BigEndianOfRead(bytes[..|bytes| - 1]);
    }
  }

  lemma LittleFirst(a: byte, rest: seq<byte>)
    ensures FromLittleEndian([a] + rest) == a as nat + 256 * FromLittleEndian(rest)
  {
    assert ([a] + rest)[1..] == rest;
  }

  lemma BigLast(rest: seq<byte>, a: byte)
    ensures FromBigEndian(rest + [a]) == 256 * FromBigEndian(rest) + a as nat
  {
    assert (rest + [a])[..|rest|] == rest;
  }

  /** The order of the bytes: the least significant one first, or last. */
  lemma FourBytes(a: byte, b: byte, c: byte, d: byte)
    ensures var n := a as nat + 0x100 * b as nat + 0x1_0000 * c as nat + 0x100_0000 * d as nat;
      FromLittleEndian([a, b, c, d]) == n && FromBigEndian([d, c, b, a]) == n
  {
    LittleFirst(d, []);
    LittleFirst(c, [d]);
    LittleFirst(b, [c, d]);
    LittleFirst(a, [b, c, d]);
    BigLast([], d);
    BigLast([d], c);
    BigLast([d, c], b);
    BigLast([d, c, b], a);
    assert [d] + [] == [] + [d] == [d] && [c] + [d] == [c, d] && [b] + [c, d] == [b, c, d];
    assert [a] + [b, c, d] == [a, b, c, d];
    assert [d] + [c] == [d, c] && [d, c] + [b] == [d, c, b] && [d, c, b] + [a] == [d, c, b, a];
  }

  lemma U32Widths()
    ensures Power256(4) == U32 && Power256(8) == U64
  {
    assert Power256(1) == 256;
    assert Power256(2) == 0x1_0000;
    assert Power256(3) == 0x100_0000;
    assert Power256(5) == 256 * Power256(4);
    assert Power256(6) == 256 * Power256(5);
    assert Power256(7) == 256 * Power256(6);
  }

  // ----- Sequences --------------------------------------------------------------------

  lemma Regroup<T>(a: seq<T>, b: seq<T>, c: seq<T>)
    ensures a + b + c == a + (b + c)
  {
  }

  // ----- Chunks -----------------------------------------------------------------------

  /** `bytes.chunks(n)`: no chunk is empty. */
  function Chunks(bytes: seq<byte>, n: nat): (chunks: seq<seq<byte>>)
    requires n > 0
    ensures forall i :: 0 <= i < |chunks| ==> 0 < |chunks[i]| <= n
    decreases |bytes|
  {
    if bytes == [] then []
    else if |bytes| <= n then [bytes]
    else [bytes[..n]] + Chunks(bytes[n..], n)
  }

  /** Every chunk but the last is full. */
  lemma {:induction false} ChunksAreFull(bytes: seq<byte>, n: nat)
    requires n > 0
    ensures forall i :: 0 <= i < |Chunks(bytes, n)| - 1 ==> |Chunks(bytes, n)[i]| == n
    decreases |bytes|
  {
    if |bytes| > n {
      ChunksAreFull(bytes[n..], n);
    }
  }

  function Joined(chunks: seq<seq<byte>>): seq<byte> {
    if chunks == [] then [] else chunks[0] + Joined(chunks[1..])
  }

  lemma {:induction false} ChunksJoin(bytes: seq<byte>, n: nat)
    requires n > 0
    ensures Joined(Chunks(bytes, n)) == bytes
    decreases |bytes|
  {
    if |bytes| > n {
      ChunksJoin(bytes[n..], n);
      assert bytes[..n] + bytes[n..] == bytes;
    } else if bytes != [] {
      assert Joined([bytes]) == bytes + Joined([]);
    }
  }
}
