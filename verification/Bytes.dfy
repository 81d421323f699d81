/** Bytes, fixed-width integers and big-endian encoding. */
module Bytes {

  type Byte = n: nat | n < 0x100
  type U16 = n: nat | n < 0x1_0000
  type U32 = n: nat | n < 0x1_0000_0000
  type U64 = n: nat | n < 0x1_0000_0000_0000_0000
  type Int64 = n: int | -0x8000_0000_0000_0000 <= n < 0x8000_0000_0000_0000

  datatype Option<+T> = None | Some(value: T)

  datatype Result<+T, +E> = Ok(value: T) | Err(error: E)

  /** Two's complement: Go's uint64(v) of an int64. */
  function ToUnsigned(v: Int64): U64
  {
    if v < 0 then v + 0x1_0000_0000_0000_0000 else v
  }

  /** Go's int64(u) of a uint64. */
  function ToSigned(u: U64): Int64
  {
    if u >= 0x8000_0000_0000_0000 then u - 0x1_0000_0000_0000_0000 else u
  }

  function Limit(width: nat): nat
    ensures Limit(width) > 0
  {
    if width == 0 then 1 else 0x100 * Limit(width - 1)
  }

  lemma Limits()
    ensures Limit(2) == 0x1_0000
    ensures Limit(4) == 0x1_0000_0000
    ensures Limit(8) == 0x1_0000_0000_0000_0000
  {
    assert Limit(2) == 0x1_0000;
    assert Limit(4) == 0x1_0000_0000;
    assert Limit(6) == 0x1_0000_0000_0000;
  }

  /** n in `width` big-endian bytes, higher digits dropped. */
  function BigEndian(n: nat, width: nat): (s: seq<Byte>)
    ensures |s| == width
  {
    if width == 0 then [] else BigEndian(n / 0x100, width - 1) + [n % 0x100]
  }

  function FromBigEndian(s: seq<Byte>): (n: nat)
    ensures n < Limit(|s|)
  {
    if s == [] then 0 else 0x100 * FromBigEndian(s[..|s| - 1]) + s[|s| - 1]
  }

  lemma {:induction false} DecodeEncoded(n: nat, width: nat)
    requires n < Limit(width)
    ensures FromBigEndian(BigEndian(n, width)) == n
  {
    if width > 0 {
      var s := BigEndian(n, width);
      assert s[..|s| - 1] == BigEndian(n / 0x100, width - 1);
      DecodeEncoded(n / 0x100, width - 1);
    }
  }

  lemma {:induction false} EncodeDecoded(s: seq<Byte>)
    ensures BigEndian(FromBigEndian(s), |s|) == s
  {
    if s != [] {
      EncodeDecoded(s[..|s| - 1]);
    }
  }

  /** Writes n at buf[at..at+width], like binary.BigEndian.PutUintN. */
  method PutBigEndian(buf: array<Byte>, at: nat, n: nat, width: nat)
    requires at + width <= buf.Length
    modifies buf
    ensures buf[..] == old(buf[..at]) + BigEndian(n, width) + old(buf[at + width..])
  {
    var rest: nat, k: nat := n, width;
    assert buf[..at] + buf[at..] == buf[..];
    while k > 0
      invariant k <= width
      invariant BigEndian(n, width) == BigEndian(rest, k) + buf[at + k..at + width]
      invariant buf[..at + k] == old(buf[..at + k])
      invariant buf[at + width..] == old(buf[at + width..])
    {
      k := k - 1;
      buf[at + k] := rest % 0x100;
      assert buf[at + k..at + width] == [buf[at + k]] + buf[at + k + 1..at + width];
      rest := rest / 0x100;
    }
    assert buf[..] == buf[..at] + buf[at..at + width] + buf[at + width..];
  }

  /** Go's copy(buf[at:], s). */
  method Copy(buf: array<Byte>, at: nat, s: seq<Byte>)
    requires at + |s| <= buf.Length
    modifies buf
    ensures buf[..] == old(buf[..at]) + s + old(buf[at + |s|..])
  {
    forall i | 0 <= i < |s| {
      buf[at + i] := s[i];
    }
    assert buf[..] == buf[..at] + buf[at..at + |s|] + buf[at + |s|..];
  }
}
