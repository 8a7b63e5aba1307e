/** The in-memory form of the ring buffer's `ItemHeader`: a flag byte followed, at the
    alignment of the length type, by the item length.  `w` is the width in bytes of the
    length type, so a header takes `2 * w` bytes: the flag is byte 0, bytes 1 to w-1 are
    alignment filler that nobody writes, and bytes w to 2w-1 hold the length, low byte first. */
module HeaderCodec {
  import opened Modular

  type byte = x: int | 0 <= x < 256

  function Pow256(w: nat): (p: nat)
    ensures p >= 1
  {
    if w == 0 then 1 else 256 * Pow256(w - 1)
  }

  function EncodeLen(len: nat, w: nat): (s: seq<byte>)
    ensures |s| == w
  {
    if w == 0 then [] else [len % 256] + EncodeLen(len / 256, w - 1)
  }

  function DecodeLen(s: seq<byte>): (len: nat)
    ensures len < Pow256(|s|)
  {
    if s == [] then 0 else s[0] + 256 * DecodeLen(s[1..])
  }

  lemma {:induction false} DecodeEncode(len: nat, w: nat)
    requires len < Pow256(w)
    ensures DecodeLen(EncodeLen(len, w)) == len
  {
    if w == 0 {
    } else {
      DecodeEncode(len / 256, w - 1);
      assert EncodeLen(len, w)[1..] == EncodeLen(len / 256, w - 1);
    }
  }

  lemma {:induction false} EncodeDecode(s: seq<byte>)
    ensures EncodeLen(DecodeLen(s), |s|) == s
  {
    if s == [] {
    } else {
      EncodeDecode(s[1..]);
      assert [s[0]] + s[1..] == s;
    }
  }

  /** The bytes of a length are its digits to the base 256, lowest first. */
  lemma {:induction false} EncodedByte(len: nat, w: nat, i: nat)
    requires i < w
    ensures EncodeLen(len, w)[i] == len / Pow256(i) % 256
  {
    if i > 0 {
      EncodedByte(len / 256, w - 1, i - 1);
      DivideTwice(len, Pow256(i - 1));
    }
  }

  lemma DivideTwice(x: nat, p: nat)
    requires p > 0
    ensures x / 256 / p == x / (256 * p)
  {
    var d, r := x / 256 / p, x / 256 % p;
    assert x / 256 == p * d + r;
    assert x == 256 * (p * d + r) + x % 256;
    assert 256 * (p * d) == (256 * p) * d;
    DivModUnique(x, 256 * p, d, 256 * r + x % 256);
  }

  /** The flag stored in the header at offset `at`: 0 for an item, 1 for padding. */
  function FlagAt(b: seq<byte>, at: nat): byte
    requires at < |b|
  {
    b[at]
  }

  /** The length stored in the header at offset `at`. */
  function LenAt(b: seq<byte>, at: nat, w: nat): nat
    requires at + 2 * w <= |b|
  {
    DecodeLen(b[at + w..at + 2 * w])
  }
}
