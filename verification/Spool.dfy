/** Bytes put at rest a part at a time, and read back with the bytes due counted down. */
module Spool {
  import opened Prelude

  /** The bytes of every part but the last. */
  const PART: nat := 8 * 1024 * 1024

  /** What a source hands over: a chunk, or a failure. */
  datatype Got = Chunk(bytes: seq<Byte>) | Broken(why: string)

  predicate Unbroken(events: seq<Got>) {
    forall i :: 0 <= i < |events| ==> events[i].Chunk?
  }

  /** All the bytes of a source that does not fail. */
  function Stream(events: seq<Got>): (b: seq<Byte>)
    requires Unbroken(events)
  {
    if events == [] then [] else Stream(events[..|events| - 1]) + events[|events| - 1].bytes
  }

  lemma StreamStep(events: seq<Got>, i: nat)
    requires i < |events| && Unbroken(events[..i]) && events[i].Chunk?
    ensures Unbroken(events[..i + 1]) && Stream(events[..i + 1]) == Stream(events[..i]) + events[i].bytes
  {
    assert events[..i + 1][..i] == events[..i];
  }

  /** A part as it is uploaded: its number and its bytes. */
  datatype Part = Part(number: nat, bytes: seq<Byte>)

  /** Where putting a source at rest may fail. */
  datatype Place = AtSource | AtPut | AtCreate | AtPart | AtComplete

  /** A failure says whether the upload begun was aborted. */
  datatype Spooled = OnePut(bytes: seq<Byte>) | Multipart(parts: seq<Part>) | Failed(at: Place, aborted: bool)

  function Joined(parts: seq<Part>): (b: seq<Byte>) {
    if parts == [] then [] else Joined(parts[..|parts| - 1]) + parts[|parts| - 1].bytes
  }

  /** The number of the part after `n`: counted in 16 bits. */
  function PartNumber(n: nat): (r: nat) {
    (n % 0x1_0000 + 1) % 0x1_0000
  }

  /** Every part but the last is exactly one part long, none is empty, and each has its number. */
  ghost predicate WellCut(parts: seq<Part>, lastMayBeShort: bool) {
    forall i :: 0 <= i < |parts| ==>
      && parts[i].number == PartNumber(i)
      && 0 < |parts[i].bytes| <= PART
      && (i < |parts| - 1 || !lastMayBeShort ==> |parts[i].bytes| == PART)
  }

  /** A part cut off the buffer keeps the bytes, and the cutting. */
  lemma CutOff(parts: seq<Part>, part: seq<Byte>, cut: nat)
    requires WellCut(parts, false) && 0 < cut <= |part| && cut <= PART
    ensures var more := parts + [Part(PartNumber(|parts|), part[..cut])];
      && Joined(more) + part[cut..] == Joined(parts) + part
      && WellCut(more, true) && (cut == PART ==> WellCut(more, false))
  {
    OneMore(parts, Part(PartNumber(|parts|), part[..cut]));
    JoinedThen(parts, Part(PartNumber(|parts|), part[..cut]));
    Reassemble(Joined(parts), part, cut);
  }

  lemma OneMore(parts: seq<Part>, last: Part)
    requires WellCut(parts, false) && last.number == PartNumber(|parts|) && 0 < |last.bytes| <= PART
    ensures WellCut(parts + [last], true) && (|last.bytes| == PART ==> WellCut(parts + [last], false))
  {
  }

  lemma JoinedThen(parts: seq<Part>, last: Part)
    ensures Joined(parts + [last]) == Joined(parts) + last.bytes
  {
    assert (parts + [last])[..|parts|] == parts;
  }

  lemma Reassemble(before: seq<Byte>, part: seq<Byte>, cut: nat)
    requires cut <= |part|
    ensures before + part[..cut] + part[cut..] == before + part
  {
    assert part == part[..cut] + part[cut..];
  }

  /** The parts held so far are cut off the buffer while it holds a whole one, and to the last byte
      once the source has ended.  A part may fail to upload. */
  method Flush(parts0: seq<Part>, part0: seq<Byte>, ended: bool, steady: bool)
    returns (parts: seq<Part>, part: seq<Byte>, failed: bool)
    requires WellCut(parts0, false)
    ensures steady ==> !failed
    ensures !failed ==> Joined(parts) + part == Joined(parts0) + part0
    ensures !failed ==> |part| < PART && WellCut(parts, ended) && (ended ==> part == [])
  {
    parts, part, failed := parts0, part0, false;
    while |part| >= PART || (ended && part != [])
      invariant Joined(parts) + part == Joined(parts0) + part0
      invariant WellCut(parts, ended) && (part != [] ==> WellCut(parts, false))
      decreases |part|
    {
      var cut := Min(PART, |part|);
      var stored: bool := *;
      if !stored && !steady {
        failed := true;
        return;
      }
      CutOff(parts, part, cut);
      parts := parts + [Part(PartNumber(|parts|), part[..cut])];
      part := part[cut..];
    }
  }

  /** The whole source in one put. */
  method PutOnce(events: seq<Got>, steady: bool) returns (r: Spooled)
    ensures r.Failed? ==> !r.aborted && (r.at.AtSource? || r.at.AtPut?)
    ensures FailsRightly(events, steady, r)
    ensures !r.Failed? ==> r == OnePut(Stream(events))
  {
    var part: seq<Byte> := [];
    for i := 0 to |events|
      invariant Unbroken(events[..i]) && part == Stream(events[..i])
    {
      if events[i].Broken? {
        return Failed(AtSource, false);
      }
      StreamStep(events, i);
      part := part + events[i].bytes;
    }
    assert events[..|events|] == events;
    var stored: bool := *;
    return if stored || steady then OnePut(part) else Failed(AtPut, false);
  }

  /** A source that breaks is a failure, one that does not is never blamed, and a steady store never fails. */
  ghost predicate FailsRightly(events: seq<Got>, steady: bool, r: Spooled) {
    && (!Unbroken(events) ==> r.Failed?)
    && (r.Failed? && r.at.AtSource? ==> !Unbroken(events))
    && (steady && r.Failed? ==> !Unbroken(events))
  }

  /** The source cut into parts as it comes.  A source or a part that fails aborts the upload; an upload that
      cannot be created has nothing to abort, and one that cannot be completed is left as it is. */
  method PutInParts(events: seq<Got>, steady: bool) returns (r: Spooled)
    ensures r.Failed? ==> !r.at.AtPut? && (r.aborted <==> r.at.AtSource? || r.at.AtPart?)
    ensures r.Failed? && r.at.AtComplete? ==> Unbroken(events)
    ensures FailsRightly(events, steady, r)
    ensures steady ==> (r.Failed? <==> !Unbroken(events))
    ensures !r.Failed? ==>
      r.Multipart? && Unbroken(events) && Joined(r.parts) == Stream(events) && WellCut(r.parts, true)
    ensures r.Multipart? ==> forall i :: 0 <= i < |r.parts| - 1 ==> |r.parts[i].bytes| == 8_388_608
    ensures r.Multipart? ==> forall i :: 0 <= i < |r.parts| ==> 0 < |r.parts[i].bytes| <= 8_388_608
  {
    var created: bool := *;
    if !created && !steady { return Failed(AtCreate, false); }
    var part: seq<Byte>, parts: seq<Part> := [], [];
    var ended, i := false, 0;
    while !ended
      invariant 0 <= i <= |events| && (ended ==> i == |events|)
      invariant Unbroken(events[..i]) && Joined(parts) + part == Stream(events[..i])
      invariant WellCut(parts, ended) && (ended ==> part == [])
      decreases |events| - i, if ended then 0 else 1
    {
      if i < |events| {
        if events[i].Broken? {
          return Failed(AtSource, true);
        }
        StreamStep(events, i);
        Associates(Joined(parts), part, events[i].bytes);
        part := part + events[i].bytes;
        i := i + 1;
      } else {
        ended := true;
      }
      var failed;
      parts, part, failed := Flush(parts, part, ended, steady);
      if failed {
        return Failed(AtPart, true);
      }
    }
    assert events[..|events|] == events;
    var completed: bool := *;
    r := if completed || steady then Multipart(parts) else Failed(AtComplete, false);
  }

  /**
   The `size` bytes the source yields, put at rest: in one put when they are a part or less (as a
   machine word of `usizeSpan` values has them), and otherwise in parts.  What is stored is the
   source's bytes, all of them and in order; a steady store stores every source that does not break.
   */
  method SpoolBytes(events: seq<Got>, size: nat, usizeSpan: nat, steady: bool) returns (r: Spooled)
    requires usizeSpan > 8_388_608
    ensures !Unbroken(events) ==> r.Failed?
    ensures steady ==> (r.Failed? <==> !Unbroken(events))
    ensures r.Failed? ==> (r.aborted <==> size % usizeSpan > 8_388_608 && (r.at.AtSource? || r.at.AtPart?))
    ensures r.OnePut? ==> size % usizeSpan <= 8_388_608 && Unbroken(events) && r.bytes == Stream(events)
    ensures r.Multipart? ==>
      size % usizeSpan > 8_388_608 && Unbroken(events) && Joined(r.parts) == Stream(events) && WellCut(r.parts, true)
  {
    if size % usizeSpan <= PART {
      r := PutOnce(events, steady);
    } else {
      r := PutInParts(events, steady);
    }
  }

  /** The parts are numbered from 1 on, one by one, exactly while there are at most 65,535 of them. */
  lemma NumberedInOrder(parts: seq<Part>)
    requires WellCut(parts, true)
    ensures (forall i :: 0 <= i < |parts| ==> parts[i].number == i + 1) <==> |parts| <= 0xffff
  {
    if |parts| > 0xffff {
      assert parts[0xffff].number == PartNumber(0xffff) == 0;
    }
  }

  // -------------------------------------------------------------------------
  // Reading back
  // -------------------------------------------------------------------------

  /** An object's body as the store hands it, and the bytes still due. */
  class StoreChunks {
    var due: nat
    var body: seq<Got>

    constructor (due: nat, body: seq<Got>)
      ensures this.due == due && this.body == body
    {
      this.due, this.body := due, body;
    }

    /** The next chunk; a body that ends short of what is due is a failure, never the end. */
    method Next() returns (got: Option<Got>)
      modifies this
      ensures old(body) == [] ==>
        body == [] && due == old(due) && (if due > 0 then got.Some? && got.value.Broken? else got.None?)
      ensures old(body) != [] ==> body == old(body)[1..] && got == Some(old(body)[0])
      ensures old(body) != [] && old(body)[0].Chunk? ==>
                due == if |old(body)[0].bytes| <= old(due) then old(due) - |old(body)[0].bytes| else 0
    {
      if body == [] {
        return if due > 0 then Some(Broken("the body ended short")) else None;
      }
      var head := body[0];
      body := body[1..];
      if head.Chunk? {
        due := if |head.bytes| <= due then due - |head.bytes| else 0;
      }
      got := Some(head);
    }
  }

  /** An object read to its end: all the bytes of its body, and no fewer than were due. */
  method ReadAll(due: nat, body: seq<Got>) returns (bytes: Option<seq<Byte>>)
    ensures bytes == if Unbroken(body) && |Stream(body)| >= due then Some(Stream(body)) else None
  {
    var source := new StoreChunks(due, body);
    var read: seq<Byte> := [];
    ghost var i := 0;
    while true
      invariant 0 <= i <= |body| && source.body == body[i..]
      invariant Unbroken(body[..i]) && read == Stream(body[..i])
      invariant source.due == if |read| <= due then due - |read| else 0
      decreases |body| - i
    {
      var got := source.Next();
      assert i == |body| ==> body[..i] == body;
      match got
      case None =>
        return Some(read);
      case Some(Broken(_)) =>
        return None;
      case Some(Chunk(bytes)) =>
        StreamStep(body, i);
        read := read + bytes;
        i := i + 1;
    }
  }
}
