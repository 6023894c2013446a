/**
 The payment door over bytes at rest.  One request reads for a slice, saves its cursor beside the
 object under the object's stamp and answers; the same request again goes on from there.  The
 order is the structure, the paying output, the scripts, the roots.
 */
module PaymentDoor {
  import opened Prelude
  import opened Verifier
  import opened HeaderRoots

  datatype Stamp = Stamp(size: nat, etag: string)

  datatype Terms = Terms(outputIndex: nat, script: seq<Byte>, required: nat)

  datatype Word =
    | Verified(satoshis: nat, subject: Hash)
    | NoHeaderService
    | BytesRefused(refusal: Refusal)
    | NoTransaction
    | NoSuchOutput
    | WrongScript
    | Underpaid(satoshis: nat)
    | NoMerkleProof
    | HeightTooHigh(height: nat)
    | RootMismatch(height: nat, hash: Hash)
    | HeaderLookupFailed(height: nat)

  datatype Paid = Pays(txid: Hash, satoshis: nat) | Unpaid(word: Word)

  datatype Phase = Structure | Scripts | Roots

  /** What is saved between two requests, stamped with the object it was read from. */
  datatype Rest = Rest(stamp: Stamp, phase: Phase, asked: nat, cursor: Cursor)

  datatype Answer = Done(word: Word) | Pending(phase: Phase, elements: nat, input: nat, asked: nat) | NotFound | Fault

  /** What a request leaves saved, what it answers, and the heights it asked the header service for. */
  datatype Outcome = Outcome(saved: Option<Rest>, answer: Answer, heights: set<nat>)

  /** One request: the object's stamp as the request finds it, its own terms, its header service
      and its slices. */
  datatype Request = Request(stamp: Option<Stamp>, terms: Terms, headers: Option<Headers>, lookups: nat, units: nat)

  /** The output check on the subject: the output is there, then its script, then its amount. */
  function OutputWord(tip: Option<Tip>, terms: Terms): (r: Paid) {
    if tip.None? then Unpaid(NoTransaction)
    else if terms.outputIndex >= |tip.value.outputs| then Unpaid(NoSuchOutput)
    else
      var out := tip.value.outputs[terms.outputIndex];
      if out.script != terms.script then Unpaid(WrongScript)
      else if out.satoshis < terms.required then Unpaid(Underpaid(out.satoshis))
      else Pays(tip.value.txid, out.satoshis)
  }

  /** The output check's five words, and just when it says each. */
  lemma OutputWordExactly(tip: Option<Tip>, terms: Terms)
    ensures var outputs, i := if tip.Some? then tip.value.outputs else [], terms.outputIndex;
      var r := OutputWord(tip, terms);
      && (r.Pays? <==>
            tip.Some? && i < |outputs| && outputs[i].script == terms.script && outputs[i].satoshis >= terms.required)
      && (r.Pays? ==> r.txid == tip.value.txid && r.satoshis == outputs[i].satoshis)
      && (r == Unpaid(NoTransaction) <==> tip.None?)
      && (r == Unpaid(NoSuchOutput) <==> tip.Some? && i >= |outputs|)
      && (r == Unpaid(WrongScript) <==> i < |outputs| && outputs[i].script != terms.script)
      && (r.Unpaid? && r.word.Underpaid? <==>
            i < |outputs| && outputs[i].script == terms.script && outputs[i].satoshis < terms.required)
      && (r.Unpaid? && r.word.Underpaid? ==> r.word.satoshis == outputs[i].satoshis)
  {
  }

  /** The word the roots give a payment that pays. */
  function RootWord(roots: seq<Root>, r: Rooted, paid: Paid): (w: Word)
    requires paid.Pays? && !r.LookupsSpent?
    requires r.Mismatch? || r.LookupFailed? ==> r.place < |roots|
  {
    match r
    case NoProof => NoMerkleProof
    case BadHeight(h) => HeightTooHigh(h)
    case Mismatch(p) => RootMismatch(roots[p].height, roots[p].hash)
    case LookupFailed(p) => HeaderLookupFailed(roots[p].height)
    case AllCarried => Verified(paid.satoshis, paid.txid)
  }

  function PendingAt(rest: Rest, heights: set<nat>): (r: Outcome) {
    Outcome(Some(rest), Pending(rest.phase, rest.cursor.elements, rest.cursor.input, rest.asked), heights)
  }

  function DoneWith(w: Word, heights: set<nat>): (r: Outcome) {
    Outcome(None, Done(w), heights)
  }

  /** A store that failed: what was saved stays, and no verdict is answered. */
  predicate Faulted(saved: Option<Rest>, out: Outcome) {
    out.saved == saved && out.answer.Fault?
  }

  // -------------------------------------------------------------------------
  // What one request may do
  // -------------------------------------------------------------------------

  /** The roots turn: `known` is the output's word when this request judged it; otherwise the
      output is judged again, under this request's terms. */
  ghost predicate RootsTurn(stamp: Stamp, req: Request, c: Cursor, asked: nat, known: Option<Paid>, out: Outcome)
    requires req.headers.Some?
    requires known.Some? ==> known.value.Pays?
    requires asked <= |RootsOf(c.roots)|
  {
    var paid := if known.Some? then known.value else OutputWord(c.tip, req.terms);
    if paid.Unpaid? then out == DoneWith(paid.word, {})
    else exists r :: RootsSay(RootsOf(c.roots), asked, Some(req.lookups), req.headers.value, r)
                     && AskedOf(RootsOf(c.roots), asked, Some(req.lookups), req.headers.value, r, out.heights)
                     && RootsLeave(stamp, c, r, paid, out)
  }

  ghost predicate RootsLeave(stamp: Stamp, c: Cursor, r: Rooted, paid: Paid, out: Outcome)
    requires paid.Pays?
  {
    var roots := RootsOf(c.roots);
    match r
    case LookupsSpent(place) => out == PendingAt(Rest(stamp, Roots, place, c), out.heights)
    case LookupFailed(place) =>
      && place < |roots|
      && out == Outcome(Some(Rest(stamp, Roots, place, c)), Done(RootWord(roots, r, paid)), out.heights)
    case Mismatch(place) => place < |roots| && out == DoneWith(RootWord(roots, r, paid), out.heights)
    case _ => out == DoneWith(RootWord(roots, r, paid), out.heights)
  }

  ghost predicate ScriptsTurn(img: Image, stamp: Stamp, req: Request, c: Cursor, known: Option<Paid>, out: Outcome)
    requires req.headers.Some? && WellPlaced(img, c)
    requires known.Some? ==> known.value.Pays?
  {
    || (exists c' :: Later(img, req.units, c, c') && out == PendingAt(Rest(stamp, Scripts, 0, c'), {}))
    || match Run(img, req.units, c)
       case Stopped(refusal) => out == DoneWith(BytesRefused(refusal), {})
       case Whole(end) => RootsTurn(stamp, req, end, 0, known, out)
  }

  ghost predicate StructureTurn(img: Image, stamp: Stamp, req: Request, c: Cursor, out: Outcome)
    requires req.headers.Some? && WellPlaced(img, c)
  {
    || (exists c' :: Later(img, req.units, c, c') && out == PendingAt(Rest(stamp, Structure, 0, c'), {}))
    || match Run(img, req.units, c)
       case Stopped(refusal) => out == DoneWith(BytesRefused(refusal), {})
       case Whole(end) =>
         match OutputWord(end.tip, req.terms)
         case Unpaid(word) => out == DoneWith(word, {})
         case Pays(_, _) => ScriptsTurn(img, stamp, req, Start(true), Some(OutputWord(end.tip, req.terms)), out)
  }

  /** Where a request is: the phase, the cursor it reads from, the roots asked, and the output's
      word once this request has judged it. */
  datatype Place = At(phase: Phase, cursor: Cursor, asked: nat, known: Option<Paid>)

  predicate Placed(img: Image, at: Place) {
    && CursorOf(img, at.cursor)
    && at.cursor.checked == !at.phase.Structure?
    && (at.phase.Roots? ==> at.cursor.elements == |img.elements| && at.asked <= |RootsOf(at.cursor.roots)|)
    && (at.known.Some? ==> at.known.value.Pays?)
  }

  ghost predicate TurnFrom(img: Image, stamp: Stamp, req: Request, at: Place, out: Outcome)
    requires req.headers.Some? && Placed(img, at)
  {
    match at.phase
    case Structure => StructureTurn(img, stamp, req, at.cursor, out)
    case Scripts => ScriptsTurn(img, stamp, req, at.cursor, at.known, out)
    case Roots => RootsTurn(stamp, req, at.cursor, at.asked, at.known, out)
  }

  /** A saved state is of the object it is stamped with: the uploader cannot write it. */
  predicate Trusted(img: Image, rest: Rest) {
    Placed(img, At(rest.phase, rest.cursor, rest.asked, None))
  }

  /** A request's own work on the object `img`, from the state it loaded when that is of the same stamp. */
  ghost predicate TurnOf(img: Image, stamp: Stamp, req: Request, loaded: Option<Rest>, out: Outcome)
    requires req.headers.Some?
    requires loaded.Some? && loaded.value.stamp == stamp ==> Trusted(img, loaded.value)
  {
    TurnFrom(img, stamp, req,
             if loaded.Some? && loaded.value.stamp == stamp
             then At(loaded.value.phase, loaded.value.cursor, loaded.value.asked, None)
             else At(Structure, Start(false), 0, None),
             out)
  }

  /** One request: its work, or a store that failed. */
  ghost predicate DoorTurn(img: Image, stamp: Stamp, req: Request, saved: Option<Rest>, out: Outcome)
    requires req.headers.Some?
    requires saved.Some? && saved.value.stamp == stamp ==> Trusted(img, saved.value)
  {
    Faulted(saved, out) || TurnOf(img, stamp, req, saved, out)
  }

  /** A pending answer reports the state it saved; a verdict clears it, but for one of a root nobody answered for,
      which may be asked for again. */
  predicate Leaves(stamp: Stamp, out: Outcome) {
    match out.answer
    case Pending(phase, elements, input, asked) =>
      && out.saved.Some? && out.saved.value.stamp == stamp
      && out.saved.value.phase == phase && out.saved.value.asked == asked
      && out.saved.value.cursor.elements == elements && out.saved.value.cursor.input == input
    case Done(word) =>
      if word.HeaderLookupFailed? then
        out.saved.Some? && out.saved.value.stamp == stamp && out.saved.value.phase.Roots?
      else out.saved.None?
    case _ => false
  }

  lemma RootsTurnLeaves(stamp: Stamp, req: Request, c: Cursor, asked: nat, known: Option<Paid>, out: Outcome)
    requires req.headers.Some? && (known.Some? ==> known.value.Pays?) && asked <= |RootsOf(c.roots)|
    requires RootsTurn(stamp, req, c, asked, known, out)
    ensures Leaves(stamp, out)
  {
    var paid := if known.Some? then known.value else OutputWord(c.tip, req.terms);
    if paid.Pays? {
      var roots := RootsOf(c.roots);
      var r :| RootsSay(roots, asked, Some(req.lookups), req.headers.value, r) && RootsLeave(stamp, c, r, paid, out);
    }
  }

  lemma ScriptsTurnLeaves(img: Image, stamp: Stamp, req: Request, c: Cursor, known: Option<Paid>, out: Outcome)
    requires req.headers.Some? && CursorOf(img, c) && (known.Some? ==> known.value.Pays?)
    requires ScriptsTurn(img, stamp, req, c, known, out)
    ensures Leaves(stamp, out)
  {
    if c' :| Later(img, req.units, c, c') && out == PendingAt(Rest(stamp, Scripts, 0, c'), {}) {
    } else if Run(img, req.units, c).Whole? {
      RootsTurnLeaves(stamp, req, Run(img, req.units, c).cursor, 0, known, out);
    }
  }

  lemma StructureTurnLeaves(img: Image, stamp: Stamp, req: Request, c: Cursor, out: Outcome)
    requires req.headers.Some? && CursorOf(img, c) && StructureTurn(img, stamp, req, c, out)
    ensures Leaves(stamp, out)
  {
    if c' :| Later(img, req.units, c, c') && out == PendingAt(Rest(stamp, Structure, 0, c'), {}) {
    } else if Run(img, req.units, c).Whole? {
      var paid := OutputWord(Run(img, req.units, c).cursor.tip, req.terms);
      if paid.Pays? { ScriptsTurnLeaves(img, stamp, req, Start(true), Some(paid), out); }
    }
  }

  /** Every request leaves such a state, or is a store that failed and left the state as it was. */
  lemma TurnLeaves(img: Image, stamp: Stamp, req: Request, saved: Option<Rest>, out: Outcome)
    requires req.headers.Some?
    requires saved.Some? && saved.value.stamp == stamp ==> Trusted(img, saved.value)
    requires DoorTurn(img, stamp, req, saved, out)
    ensures Leaves(stamp, out) || (out.answer.Fault? && out.saved == saved)
  {
    if !Faulted(saved, out) {
      if saved.Some? && saved.value.stamp == stamp {
        match saved.value.phase
        case Structure => StructureTurnLeaves(img, stamp, req, saved.value.cursor, out);
        case Scripts => ScriptsTurnLeaves(img, stamp, req, saved.value.cursor, None, out);
        case Roots => RootsTurnLeaves(stamp, req, saved.value.cursor, saved.value.asked, None, out);
      } else {
        StructureTurnLeaves(img, stamp, req, Start(false), out);
      }
    }
  }

  /** The stored state of the door, and the requests that change it. */
  class Door {
    var saved: Option<Rest>
    /** While the store is steady it answers every call and takes every write. */
    var steady: bool

    constructor (steady: bool)
      ensures saved == None && this.steady == steady
    {
      saved, this.steady := None, steady;
    }

    /** One request's work on the object `img` at `stamp`: whatever chunks the store hands it,
        wherever its slice ends and whether or not the store fails. */
    method DoorAtRest(img: Image, stamp: Stamp, req: Request, since: Since) returns (answer: Answer, heights: set<nat>)
      requires req.headers.Some?
      requires saved.Some? && saved.value.stamp == stamp ==> Trusted(img, saved.value)
      modifies this`saved, since
      ensures steady ==> !answer.Fault?
      ensures |heights| <= req.lookups && (answer.Pending? && answer.phase.Roots? ==> |heights| == req.lookups)
      ensures DoorTurn(img, stamp, req, old(saved), Outcome(saved, answer, heights))
    {
      var at := if saved.Some? && saved.value.stamp == stamp
                then At(saved.value.phase, saved.value.cursor, saved.value.asked, None)
                else At(Structure, Start(false), 0, None);
      heights := {};
      while !at.phase.Roots?
        invariant saved == old(saved) && heights == {}
        invariant Placed(img, at)
        invariant forall out :: TurnFrom(img, stamp, req, at, out) ==> DoorTurn(img, stamp, req, saved, out)
        decreases if at.phase.Structure? then 2 else if at.phase.Scripts? then 1 else 0
      {
        ghost var was := at;
        var chunks: nat := *;
        var r := Read(img, req.units, Some(at.cursor), at.cursor.checked, chunks, steady, since);
        match r
        case Failed =>
          return Fault, {};
        case Refused(refusal) =>
          answer := Finish(BytesRefused(refusal));
          return;
        case Paused(c) =>
          answer := Pause(Rest(stamp, at.phase, 0, c));
          return;
        case Valid(end) =>
          RunToTheEnd(img, req.units, at.cursor);
          if at.phase.Structure? {
            var paid := OutputWord(end.tip, req.terms);
            if paid.Unpaid? {
              answer := Finish(paid.word);
              return;
            }
            at := At(Scripts, Start(true), 0, Some(paid));
          } else {
            at := At(Roots, end, 0, at.known);
          }
          assert forall out :: TurnFrom(img, stamp, req, at, out) ==> TurnFrom(img, stamp, req, was, out);
      }
      answer, heights := AskRoots(stamp, req, at.cursor, at.asked, at.known);
      assert !Faulted(old(saved), Outcome(saved, answer, heights)) ==>
          TurnFrom(img, stamp, req, at, Outcome(saved, answer, heights));
    }

    /** The last turn of a request: the output when it is not known yet, then the roots. */
    method AskRoots(stamp: Stamp, req: Request, c: Cursor, asked: nat, known: Option<Paid>)
      returns (answer: Answer, heights: set<nat>)
      requires req.headers.Some? && asked <= |RootsOf(c.roots)|
      requires known.Some? ==> known.value.Pays?
      modifies this`saved
      ensures steady ==> !answer.Fault?
      ensures |heights| <= req.lookups && (answer.Pending? ==> |heights| == req.lookups)
      ensures RootsTurn(stamp, req, c, asked, known, Outcome(saved, answer, heights))
        || Faulted(old(saved), Outcome(saved, answer, heights))
    {
      var paid := if known.Some? then known.value else OutputWord(c.tip, req.terms);
      heights := {};
      if paid.Unpaid? {
        answer := Finish(paid.word);
        return;
      }
      var roots := RootsOf(c.roots);
      var r;
      r, heights := RootsWord(roots, asked, Some(req.lookups), req.headers.value);
      match r
      case LookupsSpent(place) =>
        answer := Pause(Rest(stamp, Roots, place, c));
      case LookupFailed(place) =>
        answer := Pause(Rest(stamp, Roots, place, c));
        if answer.Pending? {
          answer := Done(RootWord(roots, r, paid));
        }
      case _ =>
        answer := Finish(RootWord(roots, r, paid));
      assert !Faulted(old(saved), Outcome(saved, answer, heights)) ==>
          RootsLeave(stamp, c, r, paid, Outcome(saved, answer, heights));
    }

    /** The state is saved, or the store failed and what was saved stays. */
    method Pause(rest: Rest) returns (answer: Answer)
      modifies this`saved
      ensures steady ==> !answer.Fault?
      ensures Outcome(saved, answer, {}) == PendingAt(rest, {}) || Faulted(old(saved), Outcome(saved, answer, {}))
    {
      var stored: bool := *;
      if !stored && !steady {
        return Fault;
      }
      saved := Some(rest);
      answer := PendingAt(rest, {}).answer;
    }

    /** A verdict clears the state, or the store failed and no verdict is answered. */
    method Finish(word: Word) returns (answer: Answer)
      modifies this`saved
      ensures steady ==> !answer.Fault?
      ensures Outcome(saved, answer, {}) == DoneWith(word, {}) || Faulted(old(saved), Outcome(saved, answer, {}))
    {
      var cleared: bool := *;
      if !cleared && !steady {
        return Fault;
      }
      saved := None;
      answer := Done(word);
    }
  }
}
