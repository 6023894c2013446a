/** Base64 with the standard alphabet and its padding, section 4 of RFC 4648, as the relay decodes and
    encodes it: a decoder that takes canonical text only. */
module Base64 {
  import opened Prelude

  /** The symbol of a value below 64. */
  function Symbol(v: int): (c: char) {
    if v < 0 then '=' else if v < 26 then ('A' as int + v) as char
    else if v < 52 then ('a' as int + v - 26) as char
    else if v < 62 then ('0' as int + v - 52) as char
    else if v == 62 then '+' else '/'
  }

  /** The value of a symbol, or -1 outside the alphabet. */
  function Sextet(c: char): (v: int)
    ensures -1 <= v < 64
  {
    if 'A' <= c <= 'Z' then c as int - 'A' as int
    else if 'a' <= c <= 'z' then c as int - 'a' as int + 26
    else if '0' <= c <= '9' then c as int - '0' as int + 52
    else if c == '+' then 62
    else if c == '/' then 63
    else -1
  }

  const UPPER: string := "ABCDEFGHIJKLMNOPQRSTUVWXYZ"
  const LOWER: string := "abcdefghijklmnopqrstuvwxyz"

  /** The alphabet of table 1 of RFC 4648: the capital letters, the small ones, the digits, a plus and a slash. */
  lemma AlphabetIs(v: nat)
    requires v < 64
    ensures v < 26 ==> Symbol(v) == UPPER[v]
    ensures 26 <= v < 52 ==> Symbol(v) == LOWER[v - 26]
    ensures 52 <= v < 62 ==> Symbol(v) == "0123456789"[v - 52]
    ensures 62 <= v ==> Symbol(v) == "+/"[v - 62]
  {
  }

  lemma SextetIsSymbol(c: char)
    requires Sextet(c) >= 0
    ensures Symbol(Sextet(c)) == c && c != '='
  {
  }

  lemma SymbolIsSextet(v: int)
    requires 0 <= v < 64
    ensures Sextet(Symbol(v)) == v && Symbol(v) != '='
  {
  }

  // -------------------------------------------------------------------------
  // One group
  // -------------------------------------------------------------------------

  /** One to three bytes as four symbols. */
  function EncodeGroup(g: seq<Byte>): (s: string)
    requires 1 <= |g| <= 3
    ensures |s| == 4
  {
    var a := g[0];
    var b := if |g| > 1 then g[1] else 0;
    var c := if |g| > 2 then g[2] else 0;
    [Symbol(a / 4), Symbol(a % 4 * 16 + b / 16),
     if |g| > 1 then Symbol(b % 16 * 4 + c / 64) else '=',
     if |g| > 2 then Symbol(c % 64) else '=']
  }

  /** Four symbols as the bytes they spell: three, or two or one when they end in padding, whose
      unused bits must be zero. */
  function DecodeGroup(s: string): (r: Option<seq<Byte>>)
    requires |s| == 4
  {
    var v0, v1, v2, v3 := Sextet(s[0]), Sextet(s[1]), Sextet(s[2]), Sextet(s[3]);
    if v0 < 0 || v1 < 0 then None
    else if s[2] == '=' && s[3] == '=' then
      if v1 % 16 == 0 then Some([v0 * 4 + v1 / 16]) else None
    else if v2 < 0 then None
    else if s[3] == '=' then
      if v2 % 4 == 0 then Some([v0 * 4 + v1 / 16, v1 % 16 * 16 + v2 / 4]) else None
    else if v3 < 0 then None
    else Some([v0 * 4 + v1 / 16, v1 % 16 * 16 + v2 / 4, v2 % 4 * 64 + v3])
  }

  /** The first vectors of section 10 of RFC 4648: one, two and three bytes of "foo". */
  lemma Vectors(g: seq<Byte>)
    ensures g == ['f' as int] ==> EncodeGroup(g) == "Zg=="
    ensures g == ['f' as int, 'o' as int] ==> EncodeGroup(g) == "Zm8="
    ensures g == ['f' as int, 'o' as int, 'o' as int] ==> EncodeGroup(g) == "Zm9v"
  {
  }

  /** Exactly the groups without padding carry three bytes. */
  lemma GroupFull(s: string)
    requires |s| == 4 && DecodeGroup(s).Some?
    ensures Octets(DecodeGroup(s).value) && (|DecodeGroup(s).value| == 3 <==> '=' !in s)
    ensures |DecodeGroup(s).value| == (if s[3] != '=' then 3 else if s[2] != '=' then 2 else 1)
  {
    assert s == [s[0], s[1], s[2], s[3]];
  }

  /** The bits of two bytes' parts put side by side, taken apart again. */
  lemma Bits(x: int, y: int, z: int)
    requires 0 <= x < 4 && 0 <= y < 16 && 0 <= z < 64
    ensures (x * 16 + y) / 16 == x && (x * 16 + y) % 16 == y
    ensures (y * 4 + x) / 4 == y && (y * 4 + x) % 4 == x
    ensures (z * 4 + x) / 4 == z && (z * 4 + x) % 4 == x
    ensures (x * 64 + z) / 64 == x && (x * 64 + z) % 64 == z
  {
  }

  lemma Nibbles(x: int, y: int)
    requires 0 <= x < 16 && 0 <= y < 16
    ensures (x * 16 + y) / 16 == x && (x * 16 + y) % 16 == y
  {
  }

  lemma GroupRead(g: seq<Byte>)
    requires 1 <= |g| <= 3 && Octets(g)
    ensures DecodeGroup(EncodeGroup(g)) == Some(g)
  {
    var a := g[0];
    var b := if |g| > 1 then g[1] else 0;
    var c := if |g| > 2 then g[2] else 0;
    SymbolIsSextet(a / 4);
    SymbolIsSextet(a % 4 * 16 + b / 16);
    SymbolIsSextet(b % 16 * 4 + c / 64);
    SymbolIsSextet(c % 64);
    Bits(a % 4, b / 16, 0);
    Bits(c / 64, b % 16, 0);
    assert g == if |g| == 1 then [a] else if |g| == 2 then [a, b] else [a, b, c];
  }

  /** Three bytes are put together from four sextets. */
  predicate Packed(a: int, b: int, c: int, v0: int, v1: int, v2: int, v3: int) {
    && 0 <= v0 < 64 && 0 <= v1 < 64 && 0 <= v2 < 64 && 0 <= v3 < 64
    && a == v0 * 4 + v1 / 16 && b == v1 % 16 * 16 + v2 / 4 && c == v2 % 4 * 64 + v3
  }

  /** The sextets taken out of them again are those. */
  lemma Unpacked(a: int, b: int, c: int, v0: int, v1: int, v2: int, v3: int)
    requires Packed(a, b, c, v0, v1, v2, v3)
    ensures a / 4 == v0 && a % 4 * 16 + b / 16 == v1 && b % 16 * 4 + c / 64 == v2 && c % 64 == v3
  {
    Bits(v1 / 16, 0, v0);
    Nibbles(v1 % 16, v2 / 4);
    Bits(v2 % 4, 0, v3);
  }

  /** Symbols, some of them padding, put back together. */
  lemma SymbolsWritten(s: string, a: int, b: int, c: int, v0: int, v1: int, v2: int, v3: int, n: nat)
    requires |s| == 4 && 1 <= n <= 3 && Packed(a, b, c, v0, v1, v2, v3)
    requires s[0] == Symbol(v0) && s[1] == Symbol(v1)
    requires s[2] == (if n > 1 then Symbol(v2) else '=') && s[3] == (if n > 2 then Symbol(v3) else '=')
    requires (n == 1 ==> b == 0) && (n <= 2 ==> c == 0)
    ensures EncodeGroup([a, b, c][..n]) == s
  {
    Unpacked(a, b, c, v0, v1, v2, v3);
    Spelled(s, a, b, c, v0, v1, v2, v3, n);
  }

  /** A group's first `n` bytes, by the sextets their bits are, the rest padding and their bits zero. */
  lemma Spelled(s: string, a: int, b: int, c: int, v0: int, v1: int, v2: int, v3: int, n: nat)
    requires |s| == 4 && 1 <= n <= 3 && (n == 1 ==> b == 0) && (n <= 2 ==> c == 0)
    requires a / 4 == v0 && a % 4 * 16 + b / 16 == v1 && b % 16 * 4 + c / 64 == v2 && c % 64 == v3
    requires s[0] == Symbol(v0) && s[1] == Symbol(v1)
    requires s[2] == (if n > 1 then Symbol(v2) else '=') && s[3] == (if n > 2 then Symbol(v3) else '=')
    ensures EncodeGroup([a, b, c][..n]) == s
  {
    var g := [a, b, c][..n];
    assert g[0] == a && (n > 1 ==> g[1] == b) && (n > 2 ==> g[2] == c);
    assert s == [s[0], s[1], s[2], s[3]];
  }

  lemma OneWritten(s: string)
    requires |s| == 4 && DecodeGroup(s).Some? && s[2] == '='
    ensures |DecodeGroup(s).value| == 1 && EncodeGroup(DecodeGroup(s).value) == s
  {
    var v0, v1 := Sextet(s[0]), Sextet(s[1]);
    SextetIsSymbol(s[0]);
    SextetIsSymbol(s[1]);
    var a := v0 * 4 + v1 / 16;
    SymbolsWritten(s, a, 0, 0, v0, v1, 0, 0, 1);
    assert DecodeGroup(s).value == [a, 0, 0][..1];
  }

  lemma TwoWritten(s: string)
    requires |s| == 4 && DecodeGroup(s).Some? && s[2] != '=' && s[3] == '='
    ensures |DecodeGroup(s).value| == 2 && EncodeGroup(DecodeGroup(s).value) == s
  {
    var v0, v1, v2 := Sextet(s[0]), Sextet(s[1]), Sextet(s[2]);
    SextetIsSymbol(s[0]);
    SextetIsSymbol(s[1]);
    SextetIsSymbol(s[2]);
    var a, b := v0 * 4 + v1 / 16, v1 % 16 * 16 + v2 / 4;
    SymbolsWritten(s, a, b, 0, v0, v1, v2, 0, 2);
    assert DecodeGroup(s).value == [a, b, 0][..2];
  }

  lemma ThreeWritten(s: string)
    requires |s| == 4 && DecodeGroup(s).Some? && s[2] != '=' && s[3] != '='
    ensures |DecodeGroup(s).value| == 3 && EncodeGroup(DecodeGroup(s).value) == s
  {
    var v0, v1, v2, v3 := Sextet(s[0]), Sextet(s[1]), Sextet(s[2]), Sextet(s[3]);
    SextetIsSymbol(s[0]);
    SextetIsSymbol(s[1]);
    SextetIsSymbol(s[2]);
    SextetIsSymbol(s[3]);
    var a, b, c := v0 * 4 + v1 / 16, v1 % 16 * 16 + v2 / 4, v2 % 4 * 64 + v3;
    SymbolsWritten(s, a, b, c, v0, v1, v2, v3, 3);
    assert DecodeGroup(s).value == [a, b, c][..3];
  }

  lemma GroupWritten(s: string)
    requires |s| == 4 && DecodeGroup(s).Some?
    ensures 1 <= |DecodeGroup(s).value| <= 3 && EncodeGroup(DecodeGroup(s).value) == s
  {
    if s[2] == '=' { OneWritten(s); } else if s[3] == '=' { TwoWritten(s); } else { ThreeWritten(s); }
  }

  // -------------------------------------------------------------------------
  // Whole texts
  // -------------------------------------------------------------------------

  function Encode(b: seq<Byte>): (s: string) {
    if b == [] then "" else
    if |b| <= 3 then EncodeGroup(b) else Encode(b[..3]) + Encode(b[3..])
  }

  /** The bytes a text spells; padding only in its last group. */
  function Decode(s: string): (r: Option<seq<Byte>>) {
    if s == "" then Some([])
    else if |s| < 4 then None
    else if |s| == 4 then DecodeGroup(s)
    else if '=' in s[..4] then None
    else
      var head, rest := Decode(s[..4]), Decode(s[4..]);
      if head.None? || rest.None? then None else Some(head.value + rest.value)
  }

  /** Whole groups of three bytes encode on their own. */
  lemma {:induction false} EncodeJoins(a: seq<Byte>, b: seq<Byte>, m: nat)
    requires |a| == 3 * m
    ensures Encode(a + b) == Encode(a) + Encode(b)
  {
    if a == [] {
      assert a + b == b;
    } else {
      var all := a + b;
      assert all[..3] == a[..3] && all[3..] == a[3..] + b;
      EncodeJoins(a[3..], b, m - 1);
      if |a| == 3 {
        assert a[..3] == a && a[3..] == [];
        if b == [] { assert all == a; }
      }
    }
  }

  /** The groups `n` bytes take. */
  function Groups(n: nat): (g: nat) {
    if n == 0 then 0 else if n <= 3 then 1 else 1 + Groups(n - 3)
  }

  lemma {:induction false} GroupsOf(n: nat)
    ensures Groups(n) == (n + 2) / 3 && n <= 3 * Groups(n) < n + 3
  {
    if n > 3 { GroupsOf(n - 3); }
  }

  /** Whole groups count apart from what follows them. */
  lemma {:induction false} GroupsAdd(i: nat, n: nat)
    ensures Groups(3 * i + n) == i + Groups(n)
  {
    if i > 0 { GroupsAdd(i - 1, n); }
  }

  /** Where a stretch of `n` groups from group `i` on ends, in bytes and in symbols. */
  lemma StretchLength(len: nat, i: nat, n: nat)
    requires 3 * i <= len
    ensures var top, end := Min(3 * (i + n), len), Min(4 * (i + n), 4 * Groups(len));
            3 * i <= top && Groups(3 * i) == i && 4 * Groups(top - 3 * i) == end - 4 * i
  {
    GroupsAdd(i, 0);
    GroupsAdd(i, len - 3 * i);
    RestLength(len - 3 * i, n);
  }

  /** The first `n` groups of `len` bytes, or all of them when there are fewer. */
  lemma RestLength(len: nat, n: nat)
    ensures Groups(Min(3 * n, len)) == Min(n, Groups(len))
  {
    if 3 * n < len {
      GroupsAdd(n, 0);
      GroupsAdd(n, len - 3 * n);
    } else {
      GroupsOf(len);
    }
  }

  lemma {:induction false} EncodeLength(b: seq<Byte>)
    ensures |Encode(b)| == 4 * Groups(|b|)
  {
    if |b| > 3 { EncodeLength(b[3..]); }
  }

  /** The padding a text ends in. */
  function Padding(s: string): (n: nat)
    requires |s| >= 4
  {
    if s[|s| - 1] != '=' then 0 else if s[|s| - 2] != '=' then 1 else 2
  }

  lemma {:induction false} DecodeLength(s: string)
    requires Decode(s).Some?
    ensures |s| == 4 * Groups(|Decode(s).value|) && Octets(Decode(s).value)
    ensures |s| >= 4 ==> |Decode(s).value| == 3 * Groups(|Decode(s).value|) - Padding(s)
  {
    if |s| == 4 {
      GroupFull(s);
    } else if |s| > 4 {
      GroupFull(s[..4]);
      DecodeLength(s[4..]);
      GroupsAdd(1, |Decode(s[4..]).value|);
      assert |s[4..]| >= 4 && s[4..][|s| - 5] == s[|s| - 1] && s[4..][|s| - 6] == s[|s| - 2];
    }
  }

  /** What is encoded decodes to what it was. */
  lemma {:induction false} DecodeEncode(b: seq<Byte>)
    requires Octets(b)
    ensures Decode(Encode(b)) == Some(b)
  {
    if 1 <= |b| <= 3 {
      GroupRead(b);
    } else if |b| > 3 {
      var head, rest := EncodeGroup(b[..3]), Encode(b[3..]);
      GroupRead(b[..3]);
      GroupFull(head);
      DecodeEncode(b[3..]);
      EncodeLength(b[3..]);
      var s := head + rest;
      assert s[..4] == head && s[4..] == rest;
      assert b[..3] + b[3..] == b;
    }
  }

  /** What decodes is the encoding of what it decodes to: no two texts spell the same bytes. */
  lemma {:induction false} EncodeDecode(s: string)
    requires Decode(s).Some?
    ensures Octets(Decode(s).value) && Encode(Decode(s).value) == s
  {
    DecodeLength(s);
    if |s| == 4 {
      GroupWritten(s);
    } else if |s| > 4 {
      EncodeDecode(s[4..]);
      DecodeLength(s[4..]);
      GroupWritten(s[..4]);
      GroupFull(s[..4]);
      var head, rest := DecodeGroup(s[..4]).value, Decode(s[4..]).value;
      assert (head + rest)[..3] == head && (head + rest)[3..] == rest;
      assert |rest| >= 1;
      assert s[..4] + s[4..] == s;
    }
  }

  /** A text cut between two groups decodes piece by piece, the pieces but the last with no padding. */
  lemma {:induction false} DecodeSplit(u: string, v: string, m: nat)
    requires |u| == 4 * m && v != ""
    ensures Decode(u + v).Some? <==> Decode(u).Some? && '=' !in u && Decode(v).Some?
    ensures Decode(u + v).Some? ==> Decode(u + v).value == Decode(u).value + Decode(v).value
  {
    if u == "" {
      assert u + v == v;
    } else {
      var s := u + v;
      assert s[..4] == u[..4] && s[4..] == u[4..] + v;
      DecodeSplit(u[4..], v, m - 1);
      assert '=' in u <==> '=' in u[..4] || '=' in u[4..] by {
        assert u == u[..4] + u[4..];
      }
      if |s| > 4 && |u| == 4 {
        assert u[..4] == u && u[4..] == "";
        if Decode(u).Some? { GroupFull(u); }
      }
    }
  }
}
