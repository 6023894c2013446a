/**
 The bytes of a payment on their way through the relay: decoded from the request a chunk at a time,
 and written back to text a chunk at a time, with no byte lost, added or moved.
 */
module PaymentBytes {
  import opened Prelude
  import Base64

  /** The most bytes of one chunk. */
  const CHUNK: nat := 64 * 1024

  // -------------------------------------------------------------------------
  // Hex
  // -------------------------------------------------------------------------

  function HexDigit(c: char): (v: int)
    ensures -1 <= v < 16
  {
    if '0' <= c <= '9' then c as int - '0' as int
    else if 'a' <= c <= 'f' then c as int - 'a' as int + 10
    else if 'A' <= c <= 'F' then c as int - 'A' as int + 10
    else -1
  }

  /** The sixteen digits, the letters in either case, and nothing else. */
  lemma HexDigits(v: int, c: char)
    ensures 0 <= v < 10 ==> HexDigit("0123456789"[v]) == v && HexSymbol(v) == "0123456789"[v]
    ensures 10 <= v < 16 ==> HexDigit("abcdef"[v - 10]) == HexDigit("ABCDEF"[v - 10]) == v
    ensures 10 <= v < 16 ==> HexSymbol(v) == "abcdef"[v - 10]
    ensures HexDigit(c) >= 0 <==> '0' <= c <= '9' || 'a' <= c <= 'f' || 'A' <= c <= 'F'
  {
  }

  /** A pair of digits is one byte, the first its high half. */
  lemma HexPair(s: string)
    requires |s| == 2 && HexDigit(s[0]) >= 0 && HexDigit(s[1]) >= 0
    ensures DecodeHex(s) == Some([16 * HexDigit(s[0]) + HexDigit(s[1])])
  {
    var one := [16 * HexDigit(s[0]) + HexDigit(s[1])];
    assert s[2..] == "" && one + [] == one;
  }

  /** The symbol of a value below 16. */
  function HexSymbol(v: int): (c: char)
    ensures 0 <= v < 16 ==> HexDigit(c) == v
  {
    if v < 0 then '=' else if v < 10 then ('0' as int + v) as char else if v < 16 then ('a' as int + v - 10) as char
        else '='
  }

  function DecodeHex(s: string): (r: Option<seq<Byte>>)
    ensures r.Some? ==> |s| == 2 * |r.value| && Octets(r.value)
  {
    if s == "" then Some([])
    else if |s| == 1 || HexDigit(s[0]) < 0 || HexDigit(s[1]) < 0 then None
    else
      var rest := DecodeHex(s[2..]);
      if rest.None? then None else Some([HexDigit(s[0]) * 16 + HexDigit(s[1])] + rest.value)
  }

  function EncodeHex(b: seq<Byte>): (s: string)
    ensures |s| == 2 * |b|
  {
    if b == [] then "" else [HexSymbol(b[0] / 16), HexSymbol(b[0] % 16)] + EncodeHex(b[1..])
  }

  lemma {:induction false} DecodeEncodeHex(b: seq<Byte>)
    requires Octets(b)
    ensures DecodeHex(EncodeHex(b)) == Some(b)
  {
    if b != [] {
      DecodeEncodeHex(b[1..]);
      assert EncodeHex(b)[2..] == EncodeHex(b[1..]);
      assert b == [b[0]] + b[1..];
    }
  }

  lemma {:induction false} EncodeHexJoins(a: seq<Byte>, b: seq<Byte>)
    ensures EncodeHex(a + b) == EncodeHex(a) + EncodeHex(b)
  {
    if a == [] {
      assert a + b == b;
    } else {
      assert (a + b)[1..] == a[1..] + b;
      EncodeHexJoins(a[1..], b);
    }
  }

  lemma {:induction false} HexFrom(s: string, from: nat)
    requires DecodeHex(s).Some? && from <= |DecodeHex(s).value|
    ensures DecodeHex(s[2 * from..]) == Some(DecodeHex(s).value[from..])
    decreases from
  {
    if from > 0 {
      assert s[2 * from..] == s[2..][2 * (from - 1)..];
      HexFrom(s[2..], from - 1);
      assert DecodeHex(s).value[from..] == DecodeHex(s[2..]).value[from - 1..];
    }
  }

  lemma {:induction false} HexUpTo(s: string, till: nat)
    requires DecodeHex(s).Some? && till <= |DecodeHex(s).value|
    ensures DecodeHex(s[..2 * till]) == Some(DecodeHex(s).value[..till])
    decreases till
  {
    if till > 0 {
      var cut := s[..2 * till];
      assert cut[2..] == s[2..][..2 * (till - 1)];
      HexUpTo(s[2..], till - 1);
      assert DecodeHex(s).value[..till] == [DecodeHex(s).value[0]] + DecodeHex(s[2..]).value[..till - 1];
    }
  }

  /** Any stretch of the text between two pairs decodes to that stretch of the bytes. */
  lemma HexSlice(s: string, from: nat, till: nat)
    requires DecodeHex(s).Some? && from <= till <= |DecodeHex(s).value|
    ensures DecodeHex(s[2 * from..2 * till]) == Some(DecodeHex(s).value[from..till])
  {
    HexFrom(s, from);
    HexUpTo(s[2 * from..], till - from);
    assert s[2 * from..2 * till] == s[2 * from..][..2 * (till - from)];
    assert DecodeHex(s).value[from..till] == DecodeHex(s).value[from..][..till - from];
  }

  lemma {:induction false} HexDecodes(s: string)
    ensures DecodeHex(s).Some? <==> |s| % 2 == 0 && forall i :: 0 <= i < |s| ==> HexDigit(s[i]) >= 0
  {
    if |s| >= 2 {
      HexDecodes(s[2..]);
      assert forall i :: 2 <= i < |s| ==> s[i] == s[2..][i - 2];
    }
  }

  // -------------------------------------------------------------------------
  // The carrier of an inline payment
  // -------------------------------------------------------------------------

  /** A byte array (its items as numbers, anything else out of range), hex text, or base64 text. */
  datatype Carrier = Array(items: seq<int>) | Hex(text: string) | Base64Text(text: string)

  /** All the bytes the carrier spells, when it spells any. */
  function Full(c: Carrier): (r: Option<seq<Byte>>) {
    match c
    case Array(items) => if Octets(items) then Some(items) else None
    case Hex(text) => DecodeHex(text)
    case Base64Text(text) => Base64.Decode(text)
  }

  /** The decoded length: base64 counts the padding among its last two symbols. */
  function Length(c: Carrier): (n: int) {
    match c
    case Array(items) => |items|
    case Hex(text) => |text| / 2
    case Base64Text(text) =>
      |text| / 4 * 3
      - (if |text| > 0 && text[|text| - 1] == '=' then 1 else 0)
      - (if |text| > 1 && text[|text| - 2] == '=' then 1 else 0)
  }

  /** A stretch of the payment, got from the stretch of its text that spells it. */
  function Bytes(c: Carrier, from: nat, max: nat): (r: seq<Byte>)
    requires Full(c).Some?
  {
    LengthIsFull(c);
    var at := Min(from, Length(c));
    var take := Min(max, Length(c) - at);
    match c
    case Array(items) => items[at..at + take]
    case Hex(text) => Decoded(DecodeHex(text[2 * at..2 * (at + take)]))
    case Base64Text(text) => BytesOfBase64(text, at, take)
  }

  /** The groups that hold the bytes, decoded; then what comes before the bytes dropped, and what
      comes after them. */
  function BytesOfBase64(text: string, at: nat, take: nat): (r: seq<Byte>) {
    CutGroups(text, at / 3, (at % 3 + take + 2) / 3, at % 3, take)
  }

  /** `take` bytes of the `n` groups from group `i` on, after the first `skip`. */
  function CutGroups(text: string, i: nat, n: nat, skip: nat, take: nat): (r: seq<Byte>) {
    var end := Min(4 * (i + n), |text|);
    if 4 * i > end then [] else
    var out := Decoded(Base64.Decode(text[4 * i..end]));
    var dropped := out[Min(skip, |out|)..];
    dropped[..Min(take, |dropped|)]
  }

  function Decoded(r: Option<seq<Byte>>): (b: seq<Byte>) {
    if r.Some? then r.value else []
  }

  lemma LengthIsFull(c: Carrier)
    requires Full(c).Some?
    ensures Length(c) == |Full(c).value|
  {
    if c.Base64Text? {
      Base64.DecodeLength(c.text);
      if c.text != "" { PaddingAtEnd(c.text); }
    }
  }

  /** A text that decodes has padding before its last symbol only with padding there too. */
  lemma {:induction false} PaddingAtEnd(s: string)
    requires s != "" && Base64.Decode(s).Some?
    ensures |s| >= 4 && (s[|s| - 2] == '=' ==> s[|s| - 1] == '=')
  {
    Base64.DecodeLength(s);
    if |s| > 4 {
      PaddingAtEnd(s[4..]);
      assert s[4..][|s| - 5] == s[|s| - 1] && s[4..][|s| - 6] == s[|s| - 2];
    } else {
      assert Base64.DecodeGroup(s).Some?;
    }
  }

  lemma Middle<T>(u: seq<T>, v: seq<T>, w: seq<T>)
    ensures (u + (v + w))[|u|..|u| + |v|] == v
  {
  }

  lemma Parts<T>(s: seq<T>, i: nat, j: nat)
    requires i <= j <= |s|
    ensures s == s[..i] + (s[i..j] + s[j..])
  {
  }

  /** A stretch of whole groups of an encoding is the encoding of the bytes those groups carry. */
  lemma EncodedSlice(full: seq<Byte>, i: nat, n: nat, top: nat)
    requires 3 * i <= top <= |full| && (top == |full| || top - 3 * i == 3 * n)
    ensures var end := 4 * i + 4 * Base64.Groups(top - 3 * i);
            end <= |Base64.Encode(full)| && Base64.Encode(full)[4 * i..end] == Base64.Encode(full[3 * i..top])
  {
    Parts(full, 3 * i, top);
    MiddleEncoded(full[..3 * i], full[3 * i..top], full[top..], i, n);
  }

  lemma EncodedStretch(full: seq<Byte>, i: nat, n: nat, top: nat, end: nat)
    requires 3 * i <= |full| && top == Min(3 * (i + n), |full|) && end == Min(4 * (i + n), |Base64.Encode(full)|)
    ensures 3 * i <= top && 4 * i <= end && Base64.Encode(full)[4 * i..end] == Base64.Encode(full[3 * i..top])
  {
    Base64.EncodeLength(full);
    Base64.StretchLength(|full|, i, n);
    EncodedSlice(full, i, n, top);
  }

  lemma MiddleEncoded(a: seq<Byte>, b: seq<Byte>, c: seq<Byte>, i: nat, n: nat)
    requires |a| == 3 * i && (c == [] || |b| == 3 * n)
    ensures |Base64.Encode(a + (b + c))| >= 4 * i + 4 * Base64.Groups(|b|)
    ensures Base64.Encode(a + (b + c))[4 * i..4 * i + 4 * Base64.Groups(|b|)] == Base64.Encode(b)
  {
    Base64.EncodeJoins(a, b + c, i);
    StretchJoins(b, c, n);
    EncodedLengths(a, b, i);
    Middle(Base64.Encode(a), Base64.Encode(b), Base64.Encode(c));
  }

  lemma EncodedLengths(a: seq<Byte>, b: seq<Byte>, i: nat)
    requires |a| == 3 * i
    ensures |Base64.Encode(a)| == 4 * i && |Base64.Encode(b)| == 4 * Base64.Groups(|b|)
  {
    Base64.EncodeLength(a);
    Base64.EncodeLength(b);
    Base64.GroupsAdd(i, 0);
  }

  /** A stretch of whole groups decodes to the bytes those groups carry. */
  lemma Base64Slice(s: string, full: seq<Byte>, i: nat, n: nat, top: nat, end: nat)
    requires Base64.Decode(s) == Some(full) && 3 * i <= |full|
    requires top == Min(3 * (i + n), |full|) && end == Min(4 * (i + n), |s|)
    ensures 3 * i <= top && 4 * i <= end && Base64.Decode(s[4 * i..end]) == Some(full[3 * i..top])
  {
    Base64.EncodeDecode(s);
    EncodedStretch(full, i, n, top, end);
    Base64.DecodeEncode(full[3 * i..top]);
  }

  lemma StretchJoins(b: seq<Byte>, c: seq<Byte>, n: nat)
    requires c == [] || |b| == 3 * n
    ensures Base64.Encode(b + c) == Base64.Encode(b) + Base64.Encode(c)
  {
    if c == [] {
      assert b + c == b;
    } else {
      Base64.EncodeJoins(b, c, n);
    }
  }

  /** The bytes handed out are those of the whole decode, at their place. */
  lemma BytesAreSlice(c: Carrier, from: nat, max: nat)
    requires Full(c).Some?
    ensures var full := Full(c).value;
            var at := Min(from, |full|);
            Bytes(c, from, max) == full[at..at + Min(max, |full| - at)]
  {
    if c.Hex? { HexBytesAreSlice(c, from, max); } else if c.Base64Text? { TextBytesAreSlice(c, from, max); }
  }

  lemma HexBytesAreSlice(c: Carrier, from: nat, max: nat)
    requires Full(c).Some? && c.Hex?
    ensures var full := Full(c).value;
            var at := Min(from, |full|);
            Bytes(c, from, max) == full[at..at + Min(max, |full| - at)]
  {
    var full := Full(c).value;
    LengthIsFull(c);
    var at := Min(from, |full|);
    HexSlice(c.text, at, at + Min(max, |full| - at));
  }

  lemma TextBytesAreSlice(c: Carrier, from: nat, max: nat)
    requires Full(c).Some? && c.Base64Text?
    ensures var full := Full(c).value;
            var at := Min(from, |full|);
            Bytes(c, from, max) == full[at..at + Min(max, |full| - at)]
  {
    var full := Full(c).value;
    LengthIsFull(c);
    var at := Min(from, |full|);
    Base64BytesAreSlice(c.text, full, at, Min(max, |full| - at));
  }

  lemma Within<T>(s: seq<T>, lo: nat, hi: nat, skip: nat, take: nat)
    requires lo <= hi <= |s| && lo + skip + take <= hi
    ensures s[lo..hi][skip..][..take] == s[lo + skip..lo + skip + take]
  {
  }

  lemma CutIsSlice(text: string, full: seq<Byte>, i: nat, n: nat, skip: nat, take: nat)
    requires Base64.Decode(text) == Some(full) && 3 * i + skip + take <= |full| && skip + take <= 3 * n
    ensures CutGroups(text, i, n, skip, take) == full[3 * i + skip..3 * i + skip + take]
  {
    Base64Slice(text, full, i, n, Min(3 * (i + n), |full|), Min(4 * (i + n), |text|));
    Within(full, 3 * i, Min(3 * (i + n), |full|), skip, take);
  }

  lemma Base64BytesAreSlice(text: string, full: seq<Byte>, at: nat, take: nat)
    requires Base64.Decode(text) == Some(full) && at + take <= |full|
    ensures BytesOfBase64(text, at, take) == full[at..at + take]
  {
    CutIsSlice(text, full, at / 3, (at % 3 + take + 2) / 3, at % 3, take);
  }

  /** The check of an inline payment: it keeps no decoded byte, and takes exactly what decodes. */
  method Of(c: Carrier) returns (ok: bool)
    ensures ok <==> Full(c).Some?
  {
    match c
    case Array(items) => ok := OfArray(items);
    case Hex(text) => ok := OfHex(text);
    case Base64Text(text) =>
      ok := |text| % 4 == 0;
      WholeGroups(text);
      if ok {
        ok := OfBase64(text, |text| / 4, CHUNK / 3);
      }
  }

  lemma WholeGroups(text: string)
    ensures Base64.Decode(text).Some? ==> |text| % 4 == 0
    ensures |text| % 4 == 0 ==> |text| == 4 * (|text| / 4)
  {
    if Base64.Decode(text).Some? { Base64.DecodeLength(text); }
  }

  method OfArray(items: seq<int>) returns (ok: bool)
    ensures ok <==> Octets(items)
  {
    ok := true;
    for i := 0 to |items|
      invariant ok <==> forall k :: 0 <= k < i ==> 0 <= items[k] < 256
    {
      ok := ok && 0 <= items[i] <= 255;
    }
  }

  method OfHex(text: string) returns (ok: bool)
    ensures ok <==> DecodeHex(text).Some?
  {
    ok := |text| % 2 == 0;
    for i := 0 to |text|
      invariant ok <==> |text| % 2 == 0 && forall k :: 0 <= k < i ==> HexDigit(text[k]) >= 0
    {
      ok := ok && HexDigit(text[i]) >= 0;
    }
    HexDecodes(text);
  }

  /** Base64 checked so many groups at a time, padding in the last stretch only. */
  method OfBase64(text: string, groups: nat, stretch: nat) returns (ok: bool)
    requires |text| == 4 * groups && stretch > 0
    ensures ok <==> Base64.Decode(text).Some?
  {
    var at := 0;
    while at < groups
      invariant 0 <= at <= groups
      invariant at < groups ==> (Base64.Decode(text).Some? <==> Base64.Decode(text[4 * at..]).Some?)
      invariant at == groups ==> Base64.Decode(text).Some?
    {
      var end := Min(at + stretch, groups);
      var group := text[4 * at..4 * end];
      StretchDecides(text, at, end);
      if end != groups && '=' in group {
        return false;
      }
      if Base64.Decode(group).None? {
        return false;
      }
      at := end;
    }
    ok := true;
  }

  /** What is left of a text decodes when its next stretch does, with no padding if more follows, and
      what is left then does. */
  lemma StretchDecides(text: string, at: nat, end: nat)
    requires at < end && 4 * end <= |text|
    ensures var group := text[4 * at..4 * end];
            Base64.Decode(text[4 * at..]).Some? <==>
              Base64.Decode(group).Some? && (4 * end < |text| ==> '=' !in group && Base64.Decode(text[4 * end..]).Some?)
  {
    var group := text[4 * at..4 * end];
    assert text[4 * at..] == group + text[4 * end..];
    if 4 * end < |text| {
      Base64.DecodeSplit(group, text[4 * end..], end - at);
    } else {
      assert text[4 * at..] == group;
    }
  }

  function Concat(chunks: seq<seq<Byte>>): (b: seq<Byte>) {
    if chunks == [] then [] else Concat(chunks[..|chunks| - 1]) + chunks[|chunks| - 1]
  }

  /** The carrier's bytes from a place on, at most so many. */
  method BytesFrom(c: Carrier, from: nat, max: nat) returns (bytes: seq<Byte>)
    requires Full(c).Some? && from <= |Full(c).value|
    ensures bytes == Full(c).value[from..from + Min(max, |Full(c).value| - from)]
  {
    BytesAreSlice(c, from, max);
    bytes := Bytes(c, from, max);
  }

  /** A cursor over the decoded bytes. */
  class CarrierChunks {
    const carrier: Carrier
    var at: nat

    constructor (carrier: Carrier, from: nat)
      ensures this.carrier == carrier && at == from
    {
      this.carrier, at := carrier, from;
    }

    /** The next chunk, none at the end. */
    method Next() returns (chunk: Option<seq<Byte>>)
      requires Full(carrier).Some? && at <= |Full(carrier).value|
      modifies this
      ensures var full := Full(carrier).value;
              && at == old(at) + Min(65_536, |full| - old(at))
              && chunk == if old(at) == |full| then None else Some(full[old(at)..at])
    {
      var bytes := BytesFrom(carrier, at, CHUNK);
      at := at + |bytes|;
      chunk := if bytes != [] then Some(bytes) else None;
    }
  }

  /** The chunks from `from` on are the decoded bytes from there, whole chunks but the last. */
  method AllChunks(c: Carrier, from: nat) returns (chunks: seq<seq<Byte>>)
    requires Full(c).Some? && from <= |Full(c).value|
    ensures Concat(chunks) == Full(c).value[from..]
    ensures forall i :: 0 <= i < |chunks| ==> 0 < |chunks[i]| <= 65_536 && (i < |chunks| - 1 ==> |chunks[i]| == 65_536)
  {
    var source := new CarrierChunks(c, from);
    chunks := [];
    var full := Full(c).value;
    var chunk := source.Next();
    assert Concat([]) == [];
    while chunk.Some?
      invariant source.carrier == c && from <= source.at <= |full|
      invariant chunk.Some? ==> 0 < |chunk.value| <= CHUNK && (source.at < |full| ==> |chunk.value| == CHUNK)
      invariant Concat(chunks) + (if chunk.Some? then chunk.value else []) == full[from..source.at]
      invariant chunk.None? ==> source.at == |full|
      invariant forall i :: 0 <= i < |chunks| ==>
        0 < |chunks[i]| <= CHUNK && (i < |chunks| - 1 || chunk.Some? ==> |chunks[i]| == CHUNK)
      decreases |full| - source.at, if chunk.Some? then 1 else 0
    {
      ghost var was := chunks;
      chunks := chunks + [chunk.value];
      assert chunks[..|chunks| - 1] == was;
      ghost var upTo := source.at;
      chunk := source.Next();
      assert full[from..upTo] + full[upTo..source.at] == full[from..source.at];
    }
    assert Concat(chunks) + [] == Concat(chunks);
  }
}
