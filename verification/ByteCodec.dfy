/** Little-endian numbers and CompactSize counts, as the door reads them. */
module ByteCodec {
  import opened Prelude

  lemma Dropped(a: seq<Byte>, b: seq<Byte>)
    ensures (a + b)[|a|..] == b
  {
  }

  lemma Joined(b: seq<Byte>, k: nat)
    requires k <= |b|
    ensures b[..k] + b[k..] == b
  {
  }

  lemma DroppedTwice(b: seq<Byte>, i: nat, j: nat)
    requires i + j <= |b|
    ensures b[i..][j..] == b[i + j..]
  {
  }

  function Pow256(w: nat): (r: nat)
    ensures r >= 1
  {
    if w == 0 then 1 else 256 * Pow256(w - 1)
  }

  function FromLittleEndian(bs: seq<Byte>): (n: int) {
    if bs == [] then 0 else bs[0] + 256 * FromLittleEndian(bs[1..])
  }

  function ToLittleEndian(n: nat, w: nat): (bs: seq<Byte>) {
    if w == 0 then [] else [n % 256] + ToLittleEndian(n / 256, w - 1)
  }

  /** Writing then reading keeps the number, up to the width written. */
  lemma {:induction false} LittleEndianRead(n: nat, w: nat)
    ensures |ToLittleEndian(n, w)| == w && Octets(ToLittleEndian(n, w))
    ensures FromLittleEndian(ToLittleEndian(n, w)) == n % Pow256(w)
  {
    if w > 0 {
      LittleEndianRead(n / 256, w - 1);
      var rest := ToLittleEndian(n / 256, w - 1);
      assert ToLittleEndian(n, w)[1..] == rest;
      ModSplit(n, Pow256(w - 1));
    }
  }

  lemma ModSplit(n: nat, p: nat)
    requires p >= 1
    ensures n % (256 * p) == n % 256 + 256 * ((n / 256) % p)
  {
    var q := n / 256;
    var a := q / p;
    assert n == 256 * q + n % 256;
    assert q == p * a + q % p;
    var m := 256 * (q % p) + n % 256;
    assert n == 256 * p * a + m by {
      assert 256 * (p * a) == 256 * p * a;
    }
    assert 0 <= m < 256 * p;
    ModUnique(n, 256 * p, a, m);
  }

  lemma ModUnique(n: int, d: int, a: int, m: int)
    requires d >= 1 && 0 <= m && n == d * a + m && m < d
    ensures n % d == m
  {
    var b := n / d;
    assert n == d * b + n % d;
    assert a == b by {
      assert d * (a - b) == n % d - m;
      assert a - b >= 1 ==> d * (a - b) >= d;
      assert a - b <= -1 ==> d * (a - b) <= -d;
    }
  }

  /** Reading then writing keeps the bytes. */
  lemma {:induction false} LittleEndianWritten(bs: seq<Byte>)
    requires Octets(bs)
    ensures 0 <= FromLittleEndian(bs) < Pow256(|bs|)
    ensures ToLittleEndian(FromLittleEndian(bs), |bs|) == bs
  {
    if bs != [] {
      LittleEndianWritten(bs[1..]);
      var n := FromLittleEndian(bs);
      var rest := FromLittleEndian(bs[1..]);
      assert n == bs[0] + 256 * rest;
      assert n % 256 == bs[0] && n / 256 == rest;
      assert bs == [bs[0]] + bs[1..];
    }
  }

  lemma TwoPlaces(bs: seq<Byte>)
    requires |bs| >= 2
    ensures FromLittleEndian(bs) == bs[0] + 0x100 * bs[1] + 0x1_0000 * FromLittleEndian(bs[2..])
  {
    assert bs[1..][1..] == bs[2..];
  }

  lemma FourPlaces(bs: seq<Byte>)
    requires |bs| >= 4
    ensures FromLittleEndian(bs) ==
      bs[0] + 0x100 * bs[1] + 0x1_0000 * bs[2] + 0x100_0000 * bs[3] + 0x1_0000_0000 * FromLittleEndian(bs[4..])
  {
    TwoPlaces(bs);
    TwoPlaces(bs[2..]);
    assert bs[2..][2..] == bs[4..];
  }

  /** The numbers of two, four and eight bytes: each byte at its place, the least first. */
  lemma Places(bs: seq<Byte>)
    ensures |bs| == 2 ==> FromLittleEndian(bs) == bs[0] + 0x100 * bs[1]
    ensures |bs| == 4 ==>
      FromLittleEndian(bs) == bs[0] + 0x100 * bs[1] + 0x1_0000 * bs[2] + 0x100_0000 * bs[3]
    ensures |bs| == 8 ==>
      FromLittleEndian(bs) ==
        bs[0] + 0x100 * bs[1] + 0x1_0000 * bs[2] + 0x100_0000 * bs[3] + 0x1_0000_0000 * bs[4]
        + 0x100_0000_0000 * bs[5] + 0x1_0000_0000_0000 * bs[6] + 0x100_0000_0000_0000 * bs[7]
  {
    if |bs| == 2 { TwoPlaces(bs); }
    if |bs| >= 4 { FourPlaces(bs); }
    if |bs| == 8 {
      FourPlaces(bs[4..]);
      assert bs[4..][4..] == [];
    }
  }

  datatype Count = Count(value: int, rest: seq<Byte>)

  /** The number in the first `w` bytes, and what follows it. */
  function TakeNumber(b: seq<Byte>, w: nat): (r: Option<Count>) {
    if w <= |b| then Some(Count(FromLittleEndian(b[..w]), b[w..])) else None
  }

  lemma NumberRead(n: nat, w: nat, rest: seq<Byte>)
    ensures TakeNumber(ToLittleEndian(n, w) + rest, w) == Some(Count(n % Pow256(w), rest))
  {
    LittleEndianRead(n, w);
    var b := ToLittleEndian(n, w) + rest;
    assert b[..w] == ToLittleEndian(n, w);
    Dropped(ToLittleEndian(n, w), rest);
  }

  lemma NumberWritten(b: seq<Byte>, w: nat)
    requires Octets(b) && TakeNumber(b, w).Some?
    ensures var r := TakeNumber(b, w).value;
            0 <= r.value < Pow256(w) && Octets(r.rest) && ToLittleEndian(r.value, w) + r.rest == b
  {
    LittleEndianWritten(b[..w]);
    Joined(b, w);
  }

  // -------------------------------------------------------------------------
  // CompactSize
  // -------------------------------------------------------------------------

  /** The bytes after the leading one. */
  predicate CompactWidth(w: nat) {
    w == 0 || w == 2 || w == 4 || w == 8
  }

  function Lead(w: nat): (b: Byte)
    requires CompactWidth(w) && w > 0
  {
    if w == 2 then 0xfd else if w == 4 then 0xfe else 0xff
  }

  /** A count can be written at a width that holds it, its shortest or a longer one. */
  predicate Writable(n: nat, w: nat) {
    CompactWidth(w) && (if w == 0 then n < 0xfd else n < Pow256(w))
  }

  function PrintCompact(n: nat, w: nat): (bs: seq<Byte>)
    requires Writable(n, w)
  {
    if w == 0 then [n] else [Lead(w)] + ToLittleEndian(n, w)
  }

  /** The CompactSize `b` starts with, and what follows it. */
  function ReadCompact(b: seq<Byte>): (r: Option<Count>)
    ensures r.Some? ==> |r.value.rest| < |b|
  {
    if b == [] then None
    else if b[0] < 0xfd then Some(Count(b[0], b[1..]))
    else
      var w := if b[0] == 0xfd then 2 else if b[0] == 0xfe then 4 else 8;
      if 1 + w <= |b| then Some(Count(FromLittleEndian(b[1..1 + w]), b[1 + w..])) else None
  }

  /** What a count is read from: one byte below 253, or the two, four or eight after a 253, 254 or 255, each at its
      place. */
  lemma CompactSays(b: seq<Byte>)
    requires Octets(b)
    ensures var r := ReadCompact(b);
      if |b| >= 1 && b[0] < 253 then r == Some(Count(b[0], b[1..]))
      else if |b| >= 3 && b[0] == 253 then r == Some(Count(b[1] + 0x100 * b[2], b[3..]))
      else if |b| >= 5 && b[0] == 254 then
        r == Some(Count(b[1] + 0x100 * b[2] + 0x1_0000 * b[3] + 0x100_0000 * b[4], b[5..]))
      else if |b| >= 9 && b[0] == 255 then
        r == Some(Count(
          b[1] + 0x100 * b[2] + 0x1_0000 * b[3] + 0x100_0000 * b[4] + 0x1_0000_0000 * b[5]
          + 0x100_0000_0000 * b[6] + 0x1_0000_0000_0000 * b[7] + 0x100_0000_0000_0000 * b[8], b[9..]))
      else r == None
  {
    if |b| >= 3 && b[0] == 253 { Places(b[1..3]); }
    else if |b| >= 5 && b[0] == 254 { Places(b[1..5]); }
    else if |b| >= 9 && b[0] == 255 { Places(b[1..9]); }
  }

  lemma CompactRead(n: nat, w: nat, rest: seq<Byte>)
    requires Writable(n, w)
    ensures ReadCompact(PrintCompact(n, w) + rest) == Some(Count(n, rest))
  {
    if w > 0 {
      LittleEndianRead(n, w);
      var b := PrintCompact(n, w) + rest;
      assert b[1..1 + w] == ToLittleEndian(n, w);
      assert b[1 + w..] == rest;
      assert n % Pow256(w) == n;
    }
  }

  /** Every count read was written so, at some width. */
  lemma CompactWritten(b: seq<Byte>) returns (w: nat)
    requires Octets(b) && ReadCompact(b).Some?
    ensures ReadCompact(b).value.value >= 0 && Octets(ReadCompact(b).value.rest)
    ensures Writable(ReadCompact(b).value.value, w)
    ensures PrintCompact(ReadCompact(b).value.value, w) + ReadCompact(b).value.rest == b
  {
    if b[0] < 0xfd {
      w := 0;
    } else {
      w := if b[0] == 0xfd then 2 else if b[0] == 0xfe then 4 else 8;
      LittleEndianWritten(b[1..1 + w]);
    }
  }
}
