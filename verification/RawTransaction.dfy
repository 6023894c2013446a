/**
 How long the BRC-12 transaction is that a stream starts with.  The reader walks counts the
 bytes claim; here it is shown to accept exactly the bytes a transaction prints to, and nothing
 shorter, whatever follows.
 */
module RawTransaction {
  import opened Prelude
  import opened ByteCodec

  /** An input or an output: a script behind its length, written at some width, with the bytes
      before it (an outpoint, or an amount) and after it (a sequence, or none). */
  datatype Slot = Slot(head: seq<Byte>, width: nat, script: seq<Byte>, tail: seq<Byte>)

  datatype Tx = Tx(
    version: seq<Byte>, inWidth: nat, inputs: seq<Slot>, outWidth: nat, outputs: seq<Slot>, lock: seq<Byte>)

  predicate GoodSlot(s: Slot, head: nat, tail: nat) {
    |s.head| == head && |s.tail| == tail && Writable(|s.script|, s.width)
  }

  predicate GoodSlots(slots: seq<Slot>, head: nat, tail: nat) {
    forall k :: 0 <= k < |slots| ==> GoodSlot(slots[k], head, tail)
  }

  predicate Good(tx: Tx) {
    && |tx.version| == 4 && |tx.lock| == 4
    && Writable(|tx.inputs|, tx.inWidth) && Writable(|tx.outputs|, tx.outWidth)
    && GoodSlots(tx.inputs, 36, 4) && GoodSlots(tx.outputs, 8, 0)
  }

  /** A slot as printed, and what follows it. */
  function SlotThen(s: Slot, rest: seq<Byte>): (b: seq<Byte>)
    requires Writable(|s.script|, s.width)
  {
    s.head + (PrintCompact(|s.script|, s.width) + (s.script + (s.tail + rest)))
  }

  function SlotsThen(slots: seq<Slot>, head: nat, tail: nat, rest: seq<Byte>): (b: seq<Byte>)
    requires GoodSlots(slots, head, tail)
  {
    if slots == [] then rest else SlotThen(slots[0], SlotsThen(slots[1..], head, tail, rest))
  }

  function PrintThen(tx: Tx, rest: seq<Byte>): (b: seq<Byte>)
    requires Good(tx)
  {
    tx.version + (PrintCompact(|tx.inputs|, tx.inWidth) + SlotsThen(tx.inputs, 36, 4,
                  PrintCompact(|tx.outputs|, tx.outWidth) + SlotsThen(tx.outputs, 8, 0, tx.lock + rest)))
  }

  /** The bytes of a transaction. */
  function Print(tx: Tx): (b: seq<Byte>)
    requires Good(tx)
  {
    PrintThen(tx, [])
  }

  lemma NestedAppends(a: seq<Byte>, b: seq<Byte>, c: seq<Byte>, d: seq<Byte>, rest: seq<Byte>, more: seq<Byte>)
    ensures a + (b + (c + (d + (rest + more)))) == (a + (b + (c + (d + rest)))) + more
  {
    Associates(d, rest, more);
    Associates(c, d + rest, more);
    Associates(b, c + (d + rest), more);
    Associates(a, b + (c + (d + rest)), more);
  }

  lemma {:induction false} SlotsThenAppends(slots: seq<Slot>, head: nat, tail: nat, rest: seq<Byte>, more: seq<Byte>)
    requires GoodSlots(slots, head, tail)
    ensures SlotsThen(slots, head, tail, rest + more) == SlotsThen(slots, head, tail, rest) + more
  {
    if slots != [] {
      var s := slots[0];
      var p := SlotsThen(slots[1..], head, tail, rest);
      SlotsThenAppends(slots[1..], head, tail, rest, more);
      NestedAppends(s.head, PrintCompact(|s.script|, s.width), s.script, s.tail, p, more);
    }
  }

  /** What follows a transaction follows its bytes. */
  lemma PrintThenIs(tx: Tx, rest: seq<Byte>)
    requires Good(tx)
    ensures PrintThen(tx, rest) == Print(tx) + rest
  {
    var outs := SlotsThen(tx.outputs, 8, 0, tx.lock);
    SlotsThenAppends(tx.outputs, 8, 0, tx.lock, rest);
    assert tx.lock + [] == tx.lock;
    var no := PrintCompact(|tx.outputs|, tx.outWidth);
    Associates(no, outs, rest);
    SlotsThenAppends(tx.inputs, 36, 4, no + outs, rest);
    var ins := SlotsThen(tx.inputs, 36, 4, no + outs);
    Associates(PrintCompact(|tx.inputs|, tx.inWidth), ins, rest);
    Associates(tx.version, PrintCompact(|tx.inputs|, tx.inWidth) + ins, rest);
  }

  // -------------------------------------------------------------------------
  // What a stream holds behind the transaction it starts with
  // -------------------------------------------------------------------------

  function AfterSlot(b: seq<Byte>, head: nat, tail: nat): (r: Option<seq<Byte>>) {
    if head > |b| then None else
    var count := ReadCompact(b[head..]);
    if count.None? || count.value.value < 0 || count.value.value + tail > |count.value.rest| then None
    else Some(count.value.rest[count.value.value + tail..])
  }

  function AfterSlots(b: seq<Byte>, head: nat, tail: nat, n: int): (r: Option<seq<Byte>>)
    decreases n
  {
    if n <= 0 then Some(b) else
    var one := AfterSlot(b, head, tail);
    if one.None? then None else AfterSlots(one.value, head, tail, n - 1)
  }

  function AfterTx(b: seq<Byte>): (r: Option<seq<Byte>>) {
    if |b| < 4 then None else
    var ni := ReadCompact(b[4..]);
    if ni.None? then None else
    var ins := AfterSlots(ni.value.rest, 36, 4, ni.value.value);
    if ins.None? then None else
    var no := ReadCompact(ins.value);
    if no.None? then None else
    var outs := AfterSlots(no.value.rest, 8, 0, no.value.value);
    if outs.None? || |outs.value| < 4 then None else Some(outs.value[4..])
  }

  // -------------------------------------------------------------------------
  // Every printed transaction is read, and everything read was printed
  // -------------------------------------------------------------------------

  lemma SlotRead(s: Slot, head: nat, tail: nat, rest: seq<Byte>)
    requires GoodSlot(s, head, tail)
    ensures AfterSlot(SlotThen(s, rest), head, tail) == Some(rest)
  {
    var scripted := s.script + (s.tail + rest);
    Dropped(s.head, PrintCompact(|s.script|, s.width) + scripted);
    CompactRead(|s.script|, s.width, scripted);
    assert scripted[|s.script| + tail..] == rest;
  }

  lemma {:induction false} SlotsRead(slots: seq<Slot>, head: nat, tail: nat, rest: seq<Byte>)
    requires GoodSlots(slots, head, tail)
    ensures AfterSlots(SlotsThen(slots, head, tail, rest), head, tail, |slots|) == Some(rest)
  {
    if slots != [] {
      SlotRead(slots[0], head, tail, SlotsThen(slots[1..], head, tail, rest));
      SlotsRead(slots[1..], head, tail, rest);
    }
  }

  /** Every printed transaction is read to its end, whatever follows it. */
  lemma TxRead(tx: Tx, rest: seq<Byte>)
    requires Good(tx)
    ensures AfterTx(PrintThen(tx, rest)) == Some(rest)
  {
    var outs := SlotsThen(tx.outputs, 8, 0, tx.lock + rest);
    var no := PrintCompact(|tx.outputs|, tx.outWidth) + outs;
    var ins := SlotsThen(tx.inputs, 36, 4, no);
    Dropped(tx.version, PrintCompact(|tx.inputs|, tx.inWidth) + ins);
    CompactRead(|tx.inputs|, tx.inWidth, ins);
    SlotsRead(tx.inputs, 36, 4, no);
    CompactRead(|tx.outputs|, tx.outWidth, outs);
    SlotsRead(tx.outputs, 8, 0, tx.lock + rest);
    Dropped(tx.lock, rest);
  }

  lemma SlotPrinted(b: seq<Byte>, head: nat, tail: nat) returns (s: Slot)
    requires Octets(b) && AfterSlot(b, head, tail).Some?
    ensures GoodSlot(s, head, tail) && SlotThen(s, AfterSlot(b, head, tail).value) == b
  {
    var count := ReadCompact(b[head..]).value;
    var w := CompactWritten(b[head..]);
    var n := count.value;
    var tailed := count.rest[n..];
    s := Slot(b[..head], w, count.rest[..n], tailed[..tail]);
    DroppedTwice(count.rest, n, tail);
    Joined(tailed, tail);
    Joined(count.rest, n);
    Joined(b, head);
  }

  /** The slots print to `b`, and then `end`. */
  predicate PrintTo(slots: seq<Slot>, head: nat, tail: nat, end: seq<Byte>, b: seq<Byte>) {
    GoodSlots(slots, head, tail) && SlotsThen(slots, head, tail, end) == b
  }

  predicate PrintsTo(s: Slot, head: nat, tail: nat, after: seq<Byte>, b: seq<Byte>) {
    GoodSlot(s, head, tail) && SlotThen(s, after) == b
  }

  lemma SlotsFirst(s: Slot, more: seq<Slot>, head: nat, tail: nat, end: seq<Byte>, after: seq<Byte>, b: seq<Byte>)
    returns (slots: seq<Slot>)
    requires PrintsTo(s, head, tail, after, b) && PrintTo(more, head, tail, end, after)
    ensures |slots| == |more| + 1 && PrintTo(slots, head, tail, end, b)
  {
    slots := [s] + more;
    assert slots[1..] == more;
  }

  lemma SlotOctets(b: seq<Byte>, head: nat, tail: nat)
    requires Octets(b) && AfterSlot(b, head, tail).Some?
    ensures Octets(AfterSlot(b, head, tail).value)
  {
    var w := CompactWritten(b[head..]);
  }

  lemma {:induction false} SlotsOctets(b: seq<Byte>, head: nat, tail: nat, n: nat)
    requires Octets(b) && AfterSlots(b, head, tail, n).Some?
    ensures Octets(AfterSlots(b, head, tail, n).value)
    decreases n
  {
    if n > 0 {
      SlotOctets(b, head, tail);
      SlotsOctets(AfterSlot(b, head, tail).value, head, tail, n - 1);
    }
  }

  /** `n` inputs or outputs lead from `b` to `end`. */
  predicate LeadTo(b: seq<Byte>, head: nat, tail: nat, n: int, end: seq<Byte>) {
    AfterSlots(b, head, tail, n) == Some(end)
  }

  /** The first input or output, and what follows it. */
  lemma FirstPrinted(b: seq<Byte>, head: nat, tail: nat, n: nat, end: seq<Byte>) returns (s: Slot, after: seq<Byte>)
    requires n > 0 && Octets(b) && LeadTo(b, head, tail, n, end)
    ensures Octets(after) && LeadTo(after, head, tail, n - 1, end)
    ensures PrintsTo(s, head, tail, after, b)
  {
    after := AfterSlot(b, head, tail).value;
    SlotOctets(b, head, tail);
    s := SlotPrinted(b, head, tail);
  }

  lemma NoSlots(b: seq<Byte>, head: nat, tail: nat, n: int, end: seq<Byte>) returns (slots: seq<Slot>)
    requires n == 0 && LeadTo(b, head, tail, n, end)
    ensures slots == [] && PrintTo(slots, head, tail, end, b)
  {
    slots := [];
  }

  lemma {:induction false} SlotsPrinted(b: seq<Byte>, head: nat, tail: nat, n: nat, end: seq<Byte>)
    returns (slots: seq<Slot>)
    requires Octets(b) && LeadTo(b, head, tail, n, end)
    ensures |slots| == n && PrintTo(slots, head, tail, end, b)
    decreases n
  {
    if n == 0 {
      slots := NoSlots(b, head, tail, n, end);
    } else {
      var s, after := FirstPrinted(b, head, tail, n, end);
      var more := SlotsPrinted(after, head, tail, n - 1, end);
      slots := SlotsFirst(s, more, head, tail, end, after, b);
    }
  }

  /** Whatever is read is the print of a transaction, at the widths its counts were written. */
  lemma TxPrinted(b: seq<Byte>) returns (tx: Tx)
    requires Octets(b) && AfterTx(b).Some?
    ensures Good(tx) && PrintThen(tx, AfterTx(b).value) == b
  {
    var ni := ReadCompact(b[4..]).value;
    var wi := CompactWritten(b[4..]);
    var ins := SlotsPrinted(ni.rest, 36, 4, ni.value, AfterSlots(ni.rest, 36, 4, ni.value).value);
    SlotsOctets(ni.rest, 36, 4, ni.value);
    var mid := AfterSlots(ni.rest, 36, 4, ni.value).value;
    var no := ReadCompact(mid).value;
    var wo := CompactWritten(mid);
    var outs := SlotsPrinted(no.rest, 8, 0, no.value, AfterSlots(no.rest, 8, 0, no.value).value);
    var end := AfterSlots(no.rest, 8, 0, no.value).value;
    tx := Tx(b[..4], wi, ins, wo, outs, end[..4]);
    Joined(end, 4);
    Joined(b, 4);
  }

  // -------------------------------------------------------------------------
  // The reader
  // -------------------------------------------------------------------------

  /** `at` moved past `n` bytes, when a `usize` holds the sum and the bytes are there. */
  method Skip(bytes: seq<Byte>, at: nat, n: nat, usizeMax: nat) returns (r: Option<nat>)
    requires at <= |bytes| <= usizeMax
    ensures r == if at + n <= |bytes| then Some(at + n) else None
  {
    if n > usizeMax || at + n > usizeMax {
      return None;
    }
    r := if at + n <= |bytes| then Some(at + n) else None;
  }

  method Varint(bytes: seq<Byte>, at: nat) returns (value: Option<int>, at': nat)
    requires at <= |bytes|
    ensures at <= at' <= |bytes|
    ensures var r := ReadCompact(bytes[at..]);
            if r.None? then value == None else value == Some(r.value.value) && bytes[at'..] == r.value.rest
  {
    if at == |bytes| {
      return None, at;
    }
    var lead := bytes[at];
    if lead < 0xfd {
      return Some(lead), at + 1;
    }
    var n := if lead == 0xfd then 2 else if lead == 0xfe then 4 else 8;
    if at + 1 + n > |bytes| {
      return None, at;
    }
    assert bytes[at..][1..1 + n] == bytes[at + 1..at + 1 + n];
    return Some(FromLittleEndian(bytes[at + 1..at + 1 + n])), at + 1 + n;
  }

  /** The place reached is where what follows begins; no place when nothing is to be read. */
  ghost predicate Reached(bytes: seq<Byte>, r: Option<nat>, after: Option<seq<Byte>>) {
    if after.None? then r == None else r.Some? && r.value <= |bytes| && bytes[r.value..] == after.value
  }

  /** One input or output passed. */
  method SkipSlot(bytes: seq<Byte>, at: nat, head: nat, tail: nat, usizeMax: nat) returns (r: Option<nat>)
    requires at <= |bytes| <= usizeMax
    ensures Reached(bytes, r, AfterSlot(bytes[at..], head, tail))
    ensures r.Some? ==> at + 1 + head <= r.value
  {
    r := Skip(bytes, at, head, usizeMax);
    if r.None? { return; }
    var script, at' := Varint(bytes, r.value);
    assert bytes[at..][head..] == bytes[at + head..];
    if script.None? || script.value < 0 { return None; }
    r := Skip(bytes, at', script.value, usizeMax);
    if r.None? { return; }
    r := Skip(bytes, r.value, tail, usizeMax);
  }

  /** The place reached is where `n` inputs or outputs lead; no place when they lead nowhere. */
  ghost predicate ReachedSlots(bytes: seq<Byte>, r: Option<nat>, whole: seq<Byte>, head: nat, tail: nat, n: int) {
    if r.None? then forall end :: !LeadTo(whole, head, tail, n, end)
    else r.value <= |bytes| && LeadTo(whole, head, tail, n, bytes[r.value..])
  }

  /** `n` inputs or outputs lead from `whole` just where `left` of them lead from `rest`. */
  ghost predicate LeadAlike(whole: seq<Byte>, n: int, rest: seq<Byte>, left: int, head: nat, tail: nat) {
    forall end :: LeadTo(whole, head, tail, n, end) <==> LeadTo(rest, head, tail, left, end)
  }

  /** The next of the inputs or outputs passed. */
  method SkipNext(bytes: seq<Byte>, at: nat, head: nat, tail: nat, usizeMax: nat, ghost whole: seq<Byte>, ghost n: int,
                  ghost left: int) returns (r: Option<nat>)
    requires at <= |bytes| <= usizeMax && head >= 8 && left > 0
    requires LeadAlike(whole, n, bytes[at..], left, head, tail)
    ensures r.None? ==> ReachedSlots(bytes, r, whole, head, tail, n)
    ensures r.Some? ==> at + 9 <= r.value <= |bytes| && LeadAlike(whole, n, bytes[r.value..], left - 1, head, tail)
  {
    r := SkipSlot(bytes, at, head, tail, usizeMax);
    forall end
      ensures LeadTo(bytes[at..], head, tail, left, end) <==>
        r.Some? && LeadTo(bytes[r.value..], head, tail, left - 1, end)
    {
    }
  }

  lemma LeadsHere(rest: seq<Byte>, left: int, head: nat, tail: nat)
    requires left <= 0
    ensures LeadTo(rest, head, tail, left, rest)
  {
  }

  /** `n` inputs or outputs passed, each in a round of its own. */
  method SkipSlots(bytes: seq<Byte>, start: nat, head: nat, tail: nat, n: int, usizeMax: nat)
    returns (r: Option<nat>, rounds: nat)
    requires start <= |bytes| <= usizeMax && head >= 8
    ensures ReachedSlots(bytes, r, bytes[start..], head, tail, n)
    ensures start + 9 * rounds <= (if r.Some? then r.value else |bytes|)
  {
    var at := start;
    rounds := 0;
    while rounds < n
      invariant (n > 0 ==> rounds <= n) && (n <= 0 ==> rounds == 0) && start <= at <= |bytes|
      invariant start + 9 * rounds <= at
      invariant LeadAlike(bytes[start..], n, bytes[at..], n - rounds, head, tail)
    {
      r := SkipNext(bytes, at, head, tail, usizeMax, bytes[start..], n, n - rounds);
      if r.None? { return; }
      at, rounds := r.value, rounds + 1;
    }
    LeadsHere(bytes[at..], n - rounds, head, tail);
    r := Some(at);
  }

  lemma ReachedIs(bytes: seq<Byte>, r: Option<nat>, whole: seq<Byte>, head: nat, tail: nat, n: int)
    requires ReachedSlots(bytes, r, whole, head, tail, n)
    ensures Reached(bytes, r, AfterSlots(whole, head, tail, n))
  {
    var after := AfterSlots(whole, head, tail, n);
    if after.Some? { assert LeadTo(whole, head, tail, n, after.value); }
  }

  /** The walk over the counts. */
  method WalkTx(bytes: seq<Byte>, usizeMax: nat) returns (r: Option<nat>, rounds: nat)
    requires |bytes| <= usizeMax
    ensures Reached(bytes, r, AfterTx(bytes))
    ensures 9 * rounds <= |bytes|
  {
    rounds := 0;
    r := Skip(bytes, 0, 4, usizeMax);
    if r.None? { return; }
    var n, at := Varint(bytes, r.value);
    if n.None? { return None, rounds; }
    r, rounds := SkipSlots(bytes, at, 36, 4, n.value, usizeMax);
    ReachedIs(bytes, r, bytes[at..], 36, 4, n.value);
    if r.None? { return; }
    n, at := Varint(bytes, r.value);
    if n.None? { return None, rounds; }
    var more;
    r, more := SkipSlots(bytes, at, 8, 0, n.value, usizeMax);
    ReachedIs(bytes, r, bytes[at..], 8, 0, n.value);
    rounds := rounds + more;
    if r.None? { return; }
    at := r.value;
    r := Skip(bytes, at, 4, usizeMax);
    if r.Some? { DroppedTwice(bytes, at, 4); }
  }

  /**
   Where the transaction that `bytes` starts with ends: the length of its print when it starts
   with one, and no answer otherwise.  The rounds of the walk are bounded by the
   bytes present, whatever counts they claim, and the machine's word size changes nothing.
   */
  method RawTxLen(bytes: seq<Byte>, usizeMax: nat) returns (r: Option<nat>, rounds: nat)
    requires |bytes| <= usizeMax && Octets(bytes)
    ensures r.Some? ==> r.value <= |bytes| && exists tx :: Good(tx) && Print(tx) == bytes[..r.value]
    ensures forall tx :: Good(tx) && Print(tx) <= bytes ==> r == Some(|Print(tx)|)
    ensures 9 * rounds <= |bytes|
  {
    r, rounds := WalkTx(bytes, usizeMax);
    if r.Some? {
      var tx := TxPrinted(bytes);
      PrintThenIs(tx, bytes[r.value..]);
      assert bytes[..r.value] + bytes[r.value..] == bytes;
      assert |Print(tx)| == r.value && Print(tx) == bytes[..r.value];
    }
    forall tx | Good(tx) && Print(tx) <= bytes ensures r == Some(|Print(tx)|) {
      StartsWith(bytes, tx);
      assert |bytes[|Print(tx)|..]| == |bytes| - |Print(tx)|;
    }
  }

  /** A stream that starts with a transaction's bytes is read past them. */
  lemma StartsWith(b: seq<Byte>, tx: Tx)
    requires Good(tx) && Print(tx) <= b
    ensures AfterTx(b) == Some(b[|Print(tx)|..])
  {
    var rest := b[|Print(tx)|..];
    assert b[..|Print(tx)|] == Print(tx);
    Joined(b, |Print(tx)|);
    PrintThenIs(tx, rest);
    TxRead(tx, rest);
  }

  // -------------------------------------------------------------------------
  // What a reader of a stream may rely on
  // -------------------------------------------------------------------------

  /** A stream starts with at most one transaction. */
  lemma OnePrefix(b: seq<Byte>, tx: Tx, tx': Tx)
    requires Good(tx) && Good(tx') && Print(tx) <= b && Print(tx') <= b
    ensures Print(tx) == Print(tx')
  {
    StartsWith(b, tx);
    StartsWith(b, tx');
    assert |b[|Print(tx)|..]| == |b| - |Print(tx)|;
    assert |b[|Print(tx')|..]| == |b| - |Print(tx')|;
  }

  /** No proper prefix of a printed transaction is answered. */
  lemma NoProperPrefix(tx: Tx, k: nat)
    requires Good(tx) && Octets(Print(tx)) && k < |Print(tx)|
    ensures AfterTx(Print(tx)[..k]).None?
  {
    var p := Print(tx)[..k];
    if AfterTx(p).Some? {
      var short := TxPrinted(p);
      PrintThenIs(short, AfterTx(p).value);
      assert Print(short) <= p && p <= Print(tx);
      OnePrefix(Print(tx), tx, short);
      assert false;
    }
  }

  /** The fields of a transaction of one input and one output, at their places: four bytes of version; an outpoint of
      36, a script and four of sequence; an amount of eight and a script; four of lock time. */
  lemma OneInOneOut(b: seq<Byte>, s: nat, t: nat)
    requires 60 + s + t <= |b| && s < 253 && t < 253
    requires b[4] == 1 && b[41] == s && b[46 + s] == 1 && b[55 + s] == t
    ensures AfterTx(b) == Some(b[60 + s + t..])
  {
    var ins := b[5..];
    OneSlot(ins, 36, 4, s);
    assert ins[41 + s..] == b[46 + s..];
    var outs := b[47 + s..];
    assert b[46 + s..][1..] == outs && b[4..][1..] == ins;
    OneSlot(outs, 8, 0, t);
    assert outs[9 + t..] == b[56 + s + t..];
  }

  lemma OneSlot(b: seq<Byte>, head: nat, tail: nat, script: nat)
    requires head + 1 + script + tail <= |b| && script < 253 && b[head] == script
    ensures AfterSlots(b, head, tail, 1) == Some(b[head + 1 + script + tail..])
  {
    var rest := b[head..][1..];
    assert rest == b[head + 1..];
    assert rest[script + tail..] == b[head + 1 + script + tail..];
    assert AfterSlot(b, head, tail) == Some(b[head + 1 + script + tail..]);
  }

  /** An answer never changes when bytes are appended: they only follow what followed before. */
  lemma AnswerStays(b: seq<Byte>, more: seq<Byte>)
    requires Octets(b) && AfterTx(b).Some?
    ensures AfterTx(b + more) == Some(AfterTx(b).value + more)
  {
    var tx := TxPrinted(b);
    var rest := AfterTx(b).value;
    PrintThenIs(tx, rest);
    PrintThenIs(tx, rest + more);
    Associates(Print(tx), rest, more);
    TxRead(tx, rest + more);
  }
}
