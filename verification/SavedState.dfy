/** The door's state beside an object, as bytes: what `to_binary` writes is what `from_binary` takes. */
module SavedState {
  import opened Prelude
  import opened ByteCodec

  /** `RMBD2`. */
  const MAGIC: seq<Byte> := [0x52, 0x4d, 0x42, 0x44, 0x32]

  /** `BSC2`, the layout of cursors an earlier reader saved. */
  const OLD_CURSOR: seq<Byte> := [0x42, 0x53, 0x43, 0x32]

  /** The state: its phase by number, the stamp's size and etag, the roots asked, the cursor's bytes. */
  datatype State = State(phase: Byte, size: nat, asked: nat, etag: seq<Byte>, cursor: seq<Byte>)

  /** A phase there is, and numbers a 64-bit word holds. */
  predicate Storable(s: State) {
    0 <= s.phase <= 2 && s.size < Pow256(8) && s.asked < Pow256(8)
  }

  function ToBinary(s: State): (b: seq<Byte>) {
    MAGIC + ([s.phase] + (ToLittleEndian(s.size, 8) + (ToLittleEndian(s.asked, 8)
    + (ToLittleEndian(|s.etag|, 4) + (s.etag + s.cursor)))))
  }

  /** The state from its bytes; `taken` says which cursor bytes the verifier takes. */
  function FromBinary(b: seq<Byte>, taken: seq<Byte> -> bool): (r: Option<State>) {
    if |b| < 6 || b[..5] != MAGIC then None else Fields(b[5], b[6..], taken)
  }

  function Fields(phase: Byte, b: seq<Byte>, taken: seq<Byte> -> bool): (r: Option<State>) {
    var size := TakeNumber(b, 8);
    if size.None? then None else
    var asked := TakeNumber(size.value.rest, 8);
    if asked.None? then None else
    var len := TakeNumber(asked.value.rest, 4);
    if len.None? || !(0 <= len.value.value <= |len.value.rest|) then None else
    var etag, cursor := len.value.rest[..len.value.value], len.value.rest[len.value.value..];
    if !(0 <= phase <= 2) || size.value.value < 0 || asked.value.value < 0
       || OLD_CURSOR <= cursor || !taken(cursor) then
      None
    else Some(State(phase, size.value.value, asked.value.value, etag, cursor))
  }

  /** Where each field lies: the magic's five letters, a byte of phase, eight of size, eight of roots asked, four of the
      etag's length, the etag and the cursor. */
  lemma Layout(s: State)
    requires Storable(s) && |s.etag| < 0x1_0000_0000
    ensures var b, n := ToBinary(s), |s.etag|;
      && |b| == 26 + n + |s.cursor|
      && b[..5] == ['R' as int, 'M' as int, 'B' as int, 'D' as int, '2' as int] && b[5] == s.phase
      && FromLittleEndian(b[6..14]) == s.size && FromLittleEndian(b[14..22]) == s.asked
      && FromLittleEndian(b[22..26]) == n && b[26..26 + n] == s.etag && b[26 + n..] == s.cursor
  {
    var size, asked, len := ToLittleEndian(s.size, 8), ToLittleEndian(s.asked, 8), ToLittleEndian(|s.etag|, 4);
    LittleEndianRead(s.size, 8);
    LittleEndianRead(s.asked, 8);
    LittleEndianRead(|s.etag|, 4);
    FourBytes();
    Remainder(s.size, Pow256(8));
    Remainder(s.asked, Pow256(8));
    Remainder(|s.etag|, Pow256(4));
    Laid(s.phase, size, asked, len, s.etag, s.cursor);
  }

  lemma FourBytes()
    ensures Pow256(4) == 0x1_0000_0000
  {
    assert Pow256(2) == 0x1_0000;
  }

  lemma Laid(phase: Byte, size: seq<Byte>, asked: seq<Byte>, len: seq<Byte>, etag: seq<Byte>, cursor: seq<Byte>)
    requires |size| == |asked| == 8 && |len| == 4
    ensures var b := MAGIC + ([phase] + (size + (asked + (len + (etag + cursor)))));
      && |b| == 26 + |etag| + |cursor| && b[..5] == MAGIC && b[5] == phase && b[6..14] == size && b[14..22] == asked
      && b[22..26] == len && b[26..26 + |etag|] == etag && b[26 + |etag|..] == cursor
  {
  }

  /** The fields written, read one after the other: the etag is cut where its length says, 32 bits
      of it. */
  lemma FieldsRead(s: State, b: seq<Byte>, n: nat, taken: seq<Byte> -> bool)
    requires Storable(s) && n == |s.etag| % Pow256(4)
    requires b == ToLittleEndian(s.size, 8) + (ToLittleEndian(s.asked, 8) + (ToLittleEndian(|s.etag|, 4)
                  + (s.etag + s.cursor)))
    ensures n <= |s.etag| && Fields(s.phase, b, taken) ==
              var body := s.etag + s.cursor;
              if OLD_CURSOR <= body[n..] || !taken(body[n..]) then None
              else Some(State(s.phase, s.size, s.asked, body[..n], body[n..]))
  {
    var body := s.etag + s.cursor;
    var b3 := ToLittleEndian(|s.etag|, 4) + body;
    var b2 := ToLittleEndian(s.asked, 8) + b3;
    NumberRead(s.size, 8, b2);
    NumberRead(s.asked, 8, b3);
    NumberRead(|s.etag|, 4, body);
    Remainder(s.size, Pow256(8));
    Remainder(s.asked, Pow256(8));
    Remainder(|s.etag|, Pow256(4));
  }

  lemma Remainder(n: nat, d: nat)
    requires d >= 1
    ensures n % d <= n && (n < d ==> n % d == n) && n % d < d
  {
  }

  /** A state written is read back as it was, exactly when its etag's length fits the 32 bits it is
      written in and its cursor is one the verifier takes today. */
  lemma ReadBack(s: State, taken: seq<Byte> -> bool)
    requires Storable(s)
    ensures FromBinary(ToBinary(s), taken) == Some(s) <==>
              |s.etag| < 0x1_0000_0000 && taken(s.cursor)
              && !(['B' as int, 'S' as int, 'C' as int, '2' as int] <= s.cursor)
  {
    FourBytes();
    var n := |s.etag| % Pow256(4);
    var b := ToLittleEndian(s.size, 8) + (ToLittleEndian(s.asked, 8) + (ToLittleEndian(|s.etag|, 4)
             + (s.etag + s.cursor)));
    HeaderRead(s.phase, b);
    FieldsRead(s, b, n, taken);
    Remainder(|s.etag|, Pow256(4));
    Dropped(s.etag, s.cursor);
    assert (s.etag + s.cursor)[..|s.etag|] == s.etag;
  }

  lemma HeaderRead(phase: Byte, b: seq<Byte>)
    ensures var all := MAGIC + ([phase] + b); |all| >= 6 && all[..5] == MAGIC && all[5] == phase && all[6..] == b
  {
  }

  /** The fields read are the bytes they are written as. */
  lemma FieldsWritten(phase: Byte, b: seq<Byte>, taken: seq<Byte> -> bool)
    requires Octets(b) && Fields(phase, b, taken).Some?
    ensures var s := Fields(phase, b, taken).value;
      && Storable(s) && s.phase == phase
      && ToLittleEndian(s.size, 8) + (ToLittleEndian(s.asked, 8) + (ToLittleEndian(|s.etag|, 4)
         + (s.etag + s.cursor))) == b
  {
    var size := TakeNumber(b, 8).value;
    NumberWritten(b, 8);
    var asked := TakeNumber(size.rest, 8).value;
    NumberWritten(size.rest, 8);
    var len := TakeNumber(asked.rest, 4).value;
    NumberWritten(asked.rest, 4);
    Joined(len.rest, len.value);
  }

  /** Anything read was written: the bytes of a state are the only ones that make it. */
  lemma ReadWasWritten(b: seq<Byte>, taken: seq<Byte> -> bool)
    requires Octets(b) && FromBinary(b, taken).Some?
    ensures Storable(FromBinary(b, taken).value)
    ensures ToBinary(FromBinary(b, taken).value) == b
  {
    FieldsWritten(b[5], b[6..], taken);
    assert [b[5]] + b[6..] == b[5..];
    Joined(b, 5);
  }
}
