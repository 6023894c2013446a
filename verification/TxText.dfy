/** The text a stored payment is served as, whatever chunks its bytes come in: the
    text reads back to the bytes, within the length it was reckoned at. */
module TxText {
  import opened Prelude
  import opened PaymentBytes
  import Base64

  datatype TxShape = ArrayShape | HexShape | Base64Shape

  // -------------------------------------------------------------------------
  // A byte array
  // -------------------------------------------------------------------------

  function Digit(d: int): (c: char) {
    if 0 <= d < 10 then ('0' as int + d) as char else '?'
  }

  /** A byte in decimal. */
  function Decimal(n: Byte): (s: string) {
    if n < 10 then [Digit(n)]
    else if n < 100 then [Digit(n / 10), Digit(n % 10)]
    else [Digit(n / 100), Digit(n / 10 % 10), Digit(n % 10)]
  }

  /** Each byte and a comma. */
  function Items(b: seq<Byte>): (s: string) {
    if b == [] then "" else Decimal(b[0]) + ("," + Items(b[1..]))
  }

  /** The digits of a byte are the decimal ones. */
  lemma DecimalIs(n: Byte)
    requires 0 <= n < 256
    ensures n < 10 ==> Decimal(n) == ["0123456789"[n]]
    ensures 10 <= n < 100 ==> Decimal(n) == ["0123456789"[n / 10], "0123456789"[n % 10]]
    ensures 100 <= n ==> Decimal(n) == ["0123456789"[n / 100], "0123456789"[n / 10 % 10], "0123456789"[n % 10]]
  {
    DecimalDigits(n);
  }

  /** The numbers of a comma-separated list, read digit by digit: `cur` is the number under way, `any`
      whether it has a digit yet. */
  function ReadItems(s: string, cur: int, any: bool): (r: Option<seq<int>>) {
    if s == "" then (if any then Some([cur]) else None)
    else if s[0] == ',' then
      if !any then None else
      var rest := ReadItems(s[1..], 0, false);
      if rest.None? then None else Some([cur] + rest.value)
    else if '0' <= s[0] <= '9' then ReadItems(s[1..], cur * 10 + (s[0] as int - '0' as int), true)
    else None
  }

  lemma DigitRead(d: int, rest: string, cur: int, any: bool)
    requires 0 <= d < 10
    ensures ReadItems([Digit(d)] + rest, cur, any) == ReadItems(rest, cur * 10 + d, true)
  {
    assert ([Digit(d)] + rest)[1..] == rest;
  }

  lemma DigitsRead(d1: int, d2: int, d3: int, rest: string)
    requires 0 <= d1 < 10 && 0 <= d2 < 10 && 0 <= d3 < 10
    ensures ReadItems([Digit(d2), Digit(d3)] + rest, 0, false) == ReadItems(rest, d2 * 10 + d3, true)
    ensures ReadItems([Digit(d1), Digit(d2), Digit(d3)] + rest, 0, false) ==
      ReadItems(rest, d1 * 100 + d2 * 10 + d3, true)
  {
    var one := [Digit(d3)] + rest;
    DigitRead(d2, one, 0, false);
    DigitRead(d3, rest, d2, true);
    assert [Digit(d2), Digit(d3)] + rest == [Digit(d2)] + one;
    DigitRead(d1, [Digit(d2)] + one, 0, false);
    DigitRead(d2, one, d1, true);
    DigitRead(d3, rest, d1 * 10 + d2, true);
    assert [Digit(d1), Digit(d2), Digit(d3)] + rest == [Digit(d1)] + ([Digit(d2)] + one);
  }

  lemma DecimalDigits(n: Byte)
    requires 0 <= n < 256
    ensures 0 <= n / 100 < 10 && 0 <= n / 10 % 10 < 10 && 0 <= n % 10 < 10
    ensures n / 100 * 100 + n / 10 % 10 * 10 + n % 10 == n && (n < 100 ==> n / 10 % 10 == n / 10 && n / 100 == 0)
  {
  }

  lemma DecimalRead(n: Byte, rest: string)
    requires 0 <= n < 256
    ensures ReadItems(Decimal(n) + rest, 0, false) == ReadItems(rest, n, true)
  {
    DecimalDigits(n);
    var d1, d2, d3 := n / 100, n / 10 % 10, n % 10;
    if n < 10 {
      DigitRead(n, rest, 0, false);
    } else if n < 100 {
      DigitsRead(0, d2, d3, rest);
      assert Decimal(n) == [Digit(d2), Digit(d3)];
    } else {
      DigitsRead(d1, d2, d3, rest);
      assert Decimal(n) == [Digit(d1), Digit(d2), Digit(d3)];
    }
  }

  lemma {:induction false} ItemsLength(b: seq<Byte>)
    ensures 2 * |b| <= |Items(b)| <= 4 * |b|
    ensures b != [] ==> Items(b)[|Items(b)| - 1] == ','
  {
    if b != [] {
      ItemsLength(b[1..]);
    }
  }

  lemma {:induction false} ItemsJoin(a: seq<Byte>, x: Byte)
    ensures Items(a + [x]) == Items(a) + (Decimal(x) + ",")
  {
    if a == [] {
      assert a + [x] == [x];
      assert Items([x]) == Decimal(x) + ("," + "");
    } else {
      ItemsJoin(a[1..], x);
      assert (a + [x])[1..] == a[1..] + [x];
      Moved(Decimal(a[0]), Items(a[1..]), Decimal(x) + ",");
    }
  }

  lemma Moved(first: string, rest: string, one: string)
    ensures first + ("," + (rest + one)) == (first + ("," + rest)) + one
  {
    Associates(",", rest, one);
    Associates(first, "," + rest, one);
  }

  /** The items with the last comma taken off read back as they were. */
  lemma {:induction false} ItemsRead(b: seq<Byte>)
    requires Octets(b) && b != []
    ensures |Items(b)| > 0 && ReadItems(Items(b)[..|Items(b)| - 1], 0, false) == Some(b)
  {
    if |b| == 1 {
      assert b == [b[0]];
      LastItem(b[0]);
    } else {
      ItemsLength(b[1..]);
      ItemsRead(b[1..]);
      ItemsStep(b[0], b[1..]);
      assert b == [b[0]] + b[1..];
    }
  }

  lemma ItemsStep(n: Byte, rest: seq<Byte>)
    requires 0 <= n < 256 && Items(rest) != ""
    requires ReadItems(Items(rest)[..|Items(rest)| - 1], 0, false) == Some(rest)
    ensures var s := Items([n] + rest); |s| > 0 && ReadItems(s[..|s| - 1], 0, false) == Some([n] + rest)
  {
    FirstItem(n, Items(rest), rest);
    assert ([n] + rest)[1..] == rest;
  }

  lemma LastItem(n: Byte)
    requires 0 <= n < 256
    ensures var s := Items([n]); |s| > 0 && ReadItems(s[..|s| - 1], 0, false) == Some([n])
  {
    DecimalRead(n, "");
    assert Items([n]) == Decimal(n) + ("," + "");
    assert (Decimal(n) + ",")[..|Decimal(n)|] == Decimal(n) + "";
  }

  /** An item, its comma, and the list that follows. */
  lemma FirstItem(n: Byte, tail: string, ns: seq<int>)
    requires 0 <= n < 256 && tail != "" && ReadItems(tail[..|tail| - 1], 0, false) == Some(ns)
    ensures var s := Decimal(n) + ("," + tail); ReadItems(s[..|s| - 1], 0, false) == Some([n] + ns)
  {
    var rest := "," + tail[..|tail| - 1];
    CommaOff(Decimal(n), tail);
    DecimalRead(n, rest);
    assert rest[1..] == tail[..|tail| - 1];
  }

  lemma CommaOff(head: string, tail: string)
    requires tail != ""
    ensures var s := head + ("," + tail); s[..|s| - 1] == head + ("," + tail[..|tail| - 1])
  {
  }

  // -------------------------------------------------------------------------
  // The text and its reader
  // -------------------------------------------------------------------------

  const BEEF_OPEN: string := "{\"beef\":\""
  const BEEF_CLOSE: string := "\"}"

  function Inside(text: string, open: nat, close: nat): (s: string)
    requires open + close <= |text|
  {
    text[open..|text| - close]
  }

  /** The bytes a reader of the row takes from the text. */
  function ReadText(text: string, shape: TxShape): (r: Option<seq<Byte>>) {
    match shape
    case ArrayShape =>
      if |text| < 2 || text[0] != '[' || text[|text| - 1] != ']' then None
      else if |text| == 2 then Some([]) else ReadItems(Inside(text, 1, 1), 0, false)
    case HexShape =>
      if |text| < 2 || text[0] != '"' || text[|text| - 1] != '"' then None else DecodeHex(Inside(text, 1, 1))
    case Base64Shape =>
      if |text| < 11 || text[..9] != BEEF_OPEN || text[|text| - 2..] != BEEF_CLOSE then None
      else Base64.Decode(Inside(text, 9, 2))
  }

  /** A text that reads back is in its shape's brackets: a list's, a string's, or those of an object with one field. */
  lemma TextIsBracketed(text: string, shape: TxShape)
    requires ReadText(text, shape).Some?
    ensures match shape
            case ArrayShape => |text| >= 2 && text[0] == '[' && text[|text| - 1] == ']'
            case HexShape => |text| >= 2 && text[0] == '"' && text[|text| - 1] == '"'
            case Base64Shape =>
              |text| >= 11 && text[..9] == "{\"beef\":\"" && text[|text| - 2..] == "\"}"
  {
  }

  lemma InsideIs(open: string, s: string, close: string)
    ensures Inside(open + s + close, |open|, |close|) == s
  {
  }

  lemma {:induction false} ConcatStep(chunks: seq<seq<Byte>>, i: nat)
    requires i < |chunks|
    ensures Concat(chunks[..i + 1]) == Concat(chunks[..i]) + chunks[i]
  {
    assert chunks[..i + 1][..i] == chunks[..i];
  }

  /** The chunk's bytes written after those before it, each with its comma. */
  method WriteItems(text: string, chunk: seq<Byte>, ghost done: seq<Byte>) returns (more: string)
    requires text == "[" + Items(done)
    ensures more == "[" + Items(done + chunk)
  {
    more := text;
    assert done + chunk[..0] == done;
    for k := 0 to |chunk|
      invariant more == "[" + Items(done + chunk[..k])
    {
      ItemsThen(done, chunk, k);
      more := more + (Decimal(chunk[k]) + ",");
    }
    assert chunk[..|chunk|] == chunk;
  }

  lemma ItemsThen(done: seq<Byte>, chunk: seq<Byte>, k: nat)
    requires k < |chunk|
    ensures "[" + Items(done + chunk[..k]) + (Decimal(chunk[k]) + ",") == "[" + Items(done + chunk[..k + 1])
  {
    ItemsJoin(done + chunk[..k], chunk[k]);
    assert done + chunk[..k + 1] == done + chunk[..k] + [chunk[k]];
    Associates("[", Items(done + chunk[..k]), Decimal(chunk[k]) + ",");
  }

  method ArrayText(chunks: seq<seq<Byte>>) returns (text: string)
    requires Octets(Concat(chunks))
    ensures ReadText(text, ArrayShape) == Some(Concat(chunks))
    ensures 2 <= |text| <= 4 * |Concat(chunks)| + 2
  {
    text := "[";
    for i := 0 to |chunks|
      invariant text == "[" + Items(Concat(chunks[..i]))
    {
      ConcatStep(chunks, i);
      text := WriteItems(text, chunks[i], Concat(chunks[..i]));
    }
    assert chunks[..|chunks|] == chunks;
    ItemsLength(Concat(chunks));
    if text[|text| - 1] == ',' {
      text := text[..|text| - 1];
    }
    text := text + "]";
    ArrayRead(Concat(chunks), text);
  }

  lemma ArrayRead(b: seq<Byte>, text: string)
    requires Octets(b)
    requires text == if b == [] then "[]" else ("[" + Items(b))[..|Items(b)|] + "]"
    ensures ReadText(text, ArrayShape) == Some(b)
  {
    if b != [] {
      ItemsRead(b);
      Bracketed(Items(b), b, text);
    }
  }

  lemma Bracketed(s: string, b: seq<int>, text: string)
    requires s != "" && b != [] && ReadItems(s[..|s| - 1], 0, false) == Some(b)
    requires text == ("[" + s)[..|s|] + "]"
    ensures ReadText(text, ArrayShape) == Some(b)
  {
    var body := s[..|s| - 1];
    assert ("[" + s)[..|s|] == "[" + body;
    InsideIs("[", body, "]");
  }

  method HexText(chunks: seq<seq<Byte>>) returns (text: string)
    requires Octets(Concat(chunks))
    ensures ReadText(text, HexShape) == Some(Concat(chunks))
    ensures |text| == 2 * |Concat(chunks)| + 2
  {
    text := "\"";
    for i := 0 to |chunks|
      invariant text == "\"" + EncodeHex(Concat(chunks[..i]))
    {
      ConcatStep(chunks, i);
      EncodeHexJoins(Concat(chunks[..i]), chunks[i]);
      text := text + EncodeHex(chunks[i]);
    }
    assert chunks[..|chunks|] == chunks;
    text := text + "\"";
    InsideIs("\"", EncodeHex(Concat(chunks)), "\"");
    DecodeEncodeHex(Concat(chunks));
  }

  /** The first `n` groups of what is held move over to what is done. */
  lemma WholeGroups(done: seq<Byte>, held: seq<Byte>, groups: nat, n: nat)
    requires |done| == 3 * groups && 3 * n <= |held|
    ensures done + held[..3 * n] + held[3 * n..] == done + held
    ensures Base64.Encode(done + held[..3 * n]) == Base64.Encode(done) + Base64.Encode(held[..3 * n])
  {
    assert held[..3 * n] + held[3 * n..] == held;
    Associates(done, held[..3 * n], held[3 * n..]);
    Base64.EncodeJoins(done, held[..3 * n], groups);
  }

  /** The body a chunk at a time: the bytes short of a group are carried over to the next chunk. */
  method Base64Body(chunks: seq<seq<Byte>>) returns (body: string)
    ensures body == Base64.Encode(Concat(chunks))
  {
    body := "";
    var held: seq<Byte> := [];
    ghost var done: seq<Byte>, groups: nat := [], 0;
    for i := 0 to |chunks|
      invariant done + held == Concat(chunks[..i]) && |done| == 3 * groups
      invariant body == Base64.Encode(done)
    {
      ConcatStep(chunks, i);
      Associates(done, held, chunks[i]);
      held := held + chunks[i];
      var n := |held| / 3;
      WholeGroups(done, held, groups, n);
      body := body + Base64.Encode(held[..3 * n]);
      done, groups := done + held[..3 * n], groups + n;
      held := held[3 * n..];
    }
    assert chunks[..|chunks|] == chunks;
    Base64.EncodeJoins(done, held, groups);
    body := body + Base64.Encode(held);
  }

  method Base64JsonText(chunks: seq<seq<Byte>>) returns (text: string)
    requires Octets(Concat(chunks))
    ensures ReadText(text, Base64Shape) == Some(Concat(chunks))
    ensures |text| == (|Concat(chunks)| + 2) / 3 * 4 + 11
  {
    var body := Base64Body(chunks);
    text := BEEF_OPEN + body + BEEF_CLOSE;
    Base64.EncodeLength(Concat(chunks));
    Base64.GroupsOf(|Concat(chunks)|);
    Base64.DecodeEncode(Concat(chunks));
    Enclosed(body);
  }

  lemma Enclosed(body: string)
    ensures var text := BEEF_OPEN + body + BEEF_CLOSE;
            && |text| == |body| + 11 && text[..9] == BEEF_OPEN
            && text[|text| - 2..] == BEEF_CLOSE && Inside(text, 9, 2) == body
  {
    var text := BEEF_OPEN + body + BEEF_CLOSE;
    assert |BEEF_OPEN| == 9 && |BEEF_CLOSE| == 2;
    assert text[..9] == BEEF_OPEN;
    assert text[|text| - 2..] == BEEF_CLOSE;
  }

  /** The text of an object's bytes in a shape. */
  method WriteText(chunks: seq<seq<Byte>>, shape: TxShape) returns (text: string)
    requires Octets(Concat(chunks))
    ensures ReadText(text, shape) == Some(Concat(chunks))
    ensures |text| <= EncodedLen(|Concat(chunks)|, shape) <==> Reckoned(|Concat(chunks)|, shape) <= U64_MAX
  {
    match shape
    case ArrayShape => text := ArrayText(chunks);
    case HexShape => text := HexText(chunks);
    case Base64Shape => text := Base64JsonText(chunks);
    LengthReckoned(|Concat(chunks)|, shape);
  }

  // -------------------------------------------------------------------------
  // The length a text is reckoned at
  // -------------------------------------------------------------------------

  /** The sum before it is held to 64 bits. */
  function Reckoned(size: nat, shape: TxShape): (n: nat) {
    match shape
    case ArrayShape => size * 4 + 2
    case HexShape => size * 2 + 2
    case Base64Shape => (size + 2) / 3 * 4 + 12
  }

  /** The product saturates at 64 bits, and the sum after it wraps. */
  function EncodedLen(size: nat, shape: TxShape): (n: nat) {
    match shape
    case ArrayShape => Wrapped(size * 4, 2)
    case HexShape => Wrapped(size * 2, 2)
    case Base64Shape => Wrapped((size + 2) / 3 * 4, 12)
  }

  function Wrapped(product: nat, more: nat): (n: nat) {
    (Min(product, U64_MAX) + more) % (U64_MAX + 1)
  }

  lemma WrappedIs(product: nat, more: nat)
    requires 1 <= more <= 12
    ensures Wrapped(product, more) == if product + more <= U64_MAX then product + more else
      (if product < U64_MAX then product else U64_MAX) + more - (U64_MAX + 1)
  {
  }

  lemma LengthReckoned(size: nat, shape: TxShape)
    ensures Reckoned(size, shape) <= U64_MAX ==> EncodedLen(size, shape) == Reckoned(size, shape)
    ensures Reckoned(size, shape) > U64_MAX ==> EncodedLen(size, shape) < 12
    ensures shape.ArrayShape? && 4 * size + 2 <= 18_446_744_073_709_551_615 ==> EncodedLen(size, shape) == 4 * size + 2
    ensures shape.HexShape? && 2 * size + 2 <= 18_446_744_073_709_551_615 ==> EncodedLen(size, shape) == 2 * size + 2
    ensures shape.Base64Shape? && (size + 2) / 3 * 4 + 12 <= 18_446_744_073_709_551_615 ==>
      EncodedLen(size, shape) == (size + 2) / 3 * 4 + 12
  {
    match shape
    case ArrayShape => WrappedIs(size * 4, 2);
    case HexShape => WrappedIs(size * 2, 2);
    case Base64Shape => WrappedIs((size + 2) / 3 * 4, 12);
  }
}
