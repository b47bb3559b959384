/** Bytes and big-endian integers, as encoding/binary writes and reads them. */
module Bytes {

  type byte = x: int | 0 <= x < 256

  const TWO_TO_32: nat := 0x1_0000_0000
  const TWO_TO_64: nat := 0x1_0000_0000_0000_0000

  datatype Option<+T> = None | Some(value: T) {
    function GetOr(default: T): T {
      if Some? then value else default
    }
  }

  /** 256 to the power k. */
  function Pow256(k: nat): nat {
    if k == 0 then 1 else 256 * Pow256(k - 1)
  }

  /** The k low-order bytes of n, most significant first. */
  function BigEndian(n: nat, k: nat): (b: seq<byte>)
    ensures |b| == k
  {
    if k == 0 then [] else BigEndian(n / 256, k - 1) + [n % 256]
  }

  /** The number a big-endian byte string stands for. */
  function FromBigEndian(b: seq<byte>): nat {
    if b == [] then 0 else FromBigEndian(b[..|b| - 1]) * 256 + b[|b| - 1]
  }

  lemma {:induction false} BigEndianRoundTrip(n: nat, k: nat)
    requires n < Pow256(k)
    ensures FromBigEndian(BigEndian(n, k)) == n
  {
    if k > 0 {
      BigEndianRoundTrip(n / 256, k - 1);
      assert BigEndian(n, k)[..k - 1] == BigEndian(n / 256, k - 1);
    }
  }

  /** Most significant first. */
  lemma FourBytes(n: nat)
    ensures BigEndian(n, 4) == [n / 256 / 256 / 256 % 256, n / 256 / 256 % 256, n / 256 % 256, n % 256]
  {
    assert BigEndian(n / 256 / 256 / 256, 1) == [n / 256 / 256 / 256 % 256];
    assert BigEndian(n / 256 / 256, 2) == [n / 256 / 256 / 256 % 256, n / 256 / 256 % 256];
    assert BigEndian(n / 256, 3) == [n / 256 / 256 / 256 % 256, n / 256 / 256 % 256, n / 256 % 256];
  }

  lemma Widths()
    ensures Pow256(4) == TWO_TO_32 && Pow256(8) == TWO_TO_64
  {
    assert Pow256(1) == 256;
    assert Pow256(2) == 256 * 256;
    assert Pow256(3) == 256 * 256 * 256;
    assert Pow256(5) == 256 * Pow256(4);
    assert Pow256(6) == 256 * Pow256(5);
    assert Pow256(7) == 256 * Pow256(6);
  }

  /** PutUint32 or PutUint64 into a buffer: bytes at .. at + k become n, the rest stays. */
  method PutBigEndian(buffer: array<byte>, at: nat, n: nat, k: nat)
    requires at + k <= buffer.Length
    modifies buffer
    ensures buffer[..] == old(buffer[..at]) + BigEndian(n, k) + old(buffer[at + k..])
  {
    var rest := n;
    var i := k;
    ghost var suffix: seq<byte> := [];
    while i > 0
      invariant 0 <= i <= k
      invariant |suffix| == k - i
      invariant BigEndian(n, k) == BigEndian(rest, i) + suffix
      invariant buffer[..at + i] == old(buffer[..at + i])
      invariant buffer[at + i..at + k] == suffix
      invariant buffer[at + k..] == old(buffer[at + k..])
    {
      ghost var written: seq<byte> := [rest % 256];
      assert BigEndian(rest, i) + suffix == BigEndian(rest / 256, i - 1) + (written + suffix);
      i := i - 1;
      buffer[at + i] := rest % 256;
      suffix := written + suffix;
      assert buffer[at + i..at + k] == [buffer[at + i]] + buffer[at + i + 1..at + k];
      rest := rest / 256;
    }
    assert buffer[..] == buffer[..at] + buffer[at..at + k] + buffer[at + k..];
  }
}
