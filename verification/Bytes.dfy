/** Bytes and eight-byte big-endian lengths. */
module Bytes {
  type byte = x: int | 0 <= x < 256

  type Bytes = seq<byte>

  const LIMIT: nat := 0x1_0000_0000_0000_0000

  /** `size.to_bytes(width, "big")`. */
  function BigEndian(n: nat, width: nat): (b: Bytes)
    ensures |b| == width
    decreases width, n
  {
    if width == 0 then [] else BigEndian(n / 256, width - 1) + [(n % 256) as byte]
  }

  function Value(b: Bytes): nat {
    if |b| == 0 then 0 else Value(b[..|b| - 1]) * 256 + b[|b| - 1]
  }

  function Power(width: nat): nat {
    if width == 0 then 1 else 256 * Power(width - 1)
  }

  lemma {:induction false} ValueOfBigEndian(n: nat, width: nat)
    requires n < Power(width)
    ensures Value(BigEndian(n, width)) == n
    decreases width
  {
    if width > 0 {
      var b := BigEndian(n, width);
      assert b[..width - 1] == BigEndian(n / 256, width - 1);
      ValueOfBigEndian(n / 256, width - 1);
    }
  }

  lemma {:induction false} LengthFits(n: nat)
    requires n < LIMIT
    ensures Value(BigEndian(n, 8)) == n
  {
    assert Power(8) == LIMIT by {
      assert Power(2) == 0x1_0000;
      assert Power(4) == 0x1_0000_0000;
      assert Power(6) == 0x1_0000_0000_0000;
    }
    ValueOfBigEndian(n, 8);
  }

  function Concat(blocks: seq<Bytes>): Bytes {
    if |blocks| == 0 then [] else blocks[0] + Concat(blocks[1..])
  }

  lemma {:induction false} ConcatAppend(blocks: seq<Bytes>, block: Bytes)
    ensures Concat(blocks + [block]) == Concat(blocks) + block
  {
    if |blocks| == 0 {
      assert blocks + [block] == [block];
    } else {
      assert (blocks + [block])[1..] == blocks[1..] + [block];
      ConcatAppend(blocks[1..], block);
    }
  }

  lemma {:induction false} ConcatConcat(a: seq<Bytes>, b: seq<Bytes>)
    ensures Concat(a + b) == Concat(a) + Concat(b)
  {
    if |a| == 0 {
      assert a + b == b;
    } else {
      assert (a + b)[1..] == a[1..] + b;
      ConcatConcat(a[1..], b);
    }
  }
}
