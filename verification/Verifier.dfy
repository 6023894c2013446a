/**
 The streaming verifier the payment door reads through, and the door's own reading loop.

 The verifier (bsv-rs `StreamVerifier`) is a deterministic machine over the elements of a BEEF.
 It is modelled by what it keeps between two calls, its cursor, and by one micro-step: one
 input's script run, or one element folded.  Chunks, clocks and slices decide only where the
 reading loop stops, never where the machine goes.
 */
module Verifier {
  import opened Prelude

  /** A 32-byte hash, as the number its bytes spell: the order of numbers is the order of bytes. */
  type Hash = nat

  datatype Root = Root(height: nat, hash: Hash)

  datatype TxOutput = TxOutput(script: seq<Byte>, satoshis: nat)

  /** The subject a reading comes to: the last raw transaction it folded. */
  datatype Tip = Tip(txid: Hash, outputs: seq<TxOutput>)

  datatype Refusal =
    | InvalidBeef(offset: nat, kind: string)
    | SpendRefused(offset: nat)
    | WorkDeclined(offset: nat, units: nat)
    | MiningContextUnavailable(offset: nat)

  /** One input of an unproven transaction: what its script costs, and how it ends when run. */
  datatype Spend = Spend(offset: nat, work: nat, refused: Option<Refusal>)

  /** `Raw` carries the inputs whose scripts a reading runs: those of an unproven transaction, and
      none of a proven one; `overpays` is the refusal when it pays out more than it spends. */
  datatype Element =
    | Bump(root: Root)
    | Raw(tip: Tip, spends: seq<Spend>, overpays: Option<Refusal>)
    | TxidOnly(txid: Hash)

  /** The bytes of an object as the verifier decodes them: the elements, then the end of the
      stream or the first invalid byte. */
  datatype Image = Image(elements: seq<Element>, flaw: Option<Refusal>)

  /** The verifier between two steps.  `checked` says whether scripts run; `input` is the first
      input of the element in hand whose script has not run (0 between two elements). */
  datatype Cursor = Cursor(checked: bool, elements: nat, input: nat, roots: seq<Root>, tip: Option<Tip>)

  datatype Micro = Next(cursor: Cursor) | Refuse(refusal: Refusal) | Finish

  datatype Ran = Whole(cursor: Cursor) | Stopped(refusal: Refusal)

  function Start(checked: bool): (c: Cursor) {
    Cursor(checked, 0, 0, [], None)
  }

  /** The word on one input under a local budget of work. */
  function SpendWord(s: Spend, units: nat): (r: Option<Refusal>) {
    if s.work > units then Some(WorkDeclined(s.offset, units)) else s.refused
  }

  /** The inputs whose scripts a reading runs at an element. */
  function Inputs(e: Element): (r: seq<Spend>) {
    if e.Raw? then e.spends else []
  }

  function FoldElement(c: Cursor, e: Element): (r: Cursor) {
    Cursor(c.checked, c.elements + 1, 0,
           if e.Bump? then c.roots + [e.root] else c.roots,
           if e.Raw? then Some(e.tip) else c.tip)
  }

  /** The last word on an element, once its inputs have run. */
  function Settle(c: Cursor, e: Element): (r: Micro) {
    if c.checked && e.Raw? && e.overpays.Some? then Refuse(e.overpays.value) else Next(FoldElement(c, e))
  }

  predicate WellPlaced(img: Image, c: Cursor) {
    && c.elements <= |img.elements|
    && (c.input > 0 ==> c.checked && c.elements < |img.elements| && c.input < |Inputs(img.elements[c.elements])|)
  }

  function MicroStep(img: Image, units: nat, c: Cursor): (r: Micro)
    requires WellPlaced(img, c)
    ensures r.Next? ==> WellPlaced(img, r.cursor) && Left(img, r.cursor) < Left(img, c) && r.cursor.checked == c.checked
  {
    if c.elements == |img.elements| then
      if img.flaw.Some? then Refuse(img.flaw.value) else Finish
    else
      var e := img.elements[c.elements];
      assert img.elements[c.elements..][0] == e && img.elements[c.elements..][1..] == img.elements[c.elements + 1..];
      if c.checked && c.input < |Inputs(e)| then
        var word := SpendWord(Inputs(e)[c.input], units);
        if word.Some? then Refuse(word.value)
        else if c.input + 1 < |Inputs(e)| then Next(c.(input := c.input + 1))
        else Settle(c, e)
      else Settle(c, e)
  }

  /** The micro-steps an element may take. */
  function Steps(e: Element): (r: nat) {
    1 + |Inputs(e)|
  }

  function TotalSteps(es: seq<Element>): (r: nat)
    ensures r >= |es|
  {
    if es == [] then 0 else Steps(es[0]) + TotalSteps(es[1..])
  }

  /** The micro-steps still ahead of a cursor, at most. */
  function Left(img: Image, c: Cursor): (r: nat)
    requires WellPlaced(img, c)
  {
    if c.elements == |img.elements| then 0 else
    assert img.elements[c.elements..][0] == img.elements[c.elements];
    TotalSteps(img.elements[c.elements..]) - c.input
  }

  /** The unsliced reading: the machine run from a cursor to its verdict. */
  function Run(img: Image, units: nat, c: Cursor): (r: Ran)
    requires WellPlaced(img, c)
    decreases Left(img, c)
  {
    match MicroStep(img, units, c)
    case Next(c') => Run(img, units, c')
    case Refuse(refusal) => Stopped(refusal)
    case Finish => Whole(c)
  }

  // -------------------------------------------------------------------------
  // What a cursor says about the object it was read from
  // -------------------------------------------------------------------------

  function RootsIn(es: seq<Element>): (r: seq<Root>) {
    if es == [] then [] else
    var last := es[|es| - 1];
    RootsIn(es[..|es| - 1]) + (if last.Bump? then [last.root] else [])
  }

  function TipIn(es: seq<Element>): (r: Option<Tip>) {
    if es == [] then None else
    var last := es[|es| - 1];
    if last.Raw? then Some(last.tip) else TipIn(es[..|es| - 1])
  }

  /** The cursor is one a reading of `img` could have saved. */
  predicate CursorOf(img: Image, c: Cursor) {
    && WellPlaced(img, c)
    && c.roots == RootsIn(img.elements[..c.elements])
    && c.tip == TipIn(img.elements[..c.elements])
  }

  /** The script of input `i` of element `e` lies before the cursor. */
  predicate Before(c: Cursor, e: nat, i: nat) {
    e < c.elements || (e == c.elements && i < c.input)
  }

  /** The script ends well, within the budget of work. */
  predicate Passes(s: Spend, units: nat) {
    s.work <= units && s.refused.None?
  }

  /** Every script between the two cursors is allowed under `units`, and no transaction folded
      between them pays out more than it spends. */
  ghost predicate AllowedBetween(img: Image, units: nat, c: Cursor, c': Cursor) {
    && (forall e: nat, i: nat ::
          e < |img.elements| && i < |Inputs(img.elements[e])| && !Before(c, e, i) && Before(c', e, i) ==>
            Passes(Inputs(img.elements[e])[i], units))
    && (forall e: nat :: e < |img.elements| && c.elements <= e < c'.elements && img.elements[e].Raw? ==>
          img.elements[e].overpays.None?)
  }

  /** `c'` is a place the unsliced reading from `c` goes through, strictly later. */
  ghost predicate Later(img: Image, units: nat, c: Cursor, c': Cursor) {
    && CursorOf(img, c) && CursorOf(img, c')
    && c'.checked == c.checked
    && Left(img, c') < Left(img, c)
    && Run(img, units, c') == Run(img, units, c)
    && (c.checked ==> AllowedBetween(img, units, c, c'))
  }

  lemma {:induction false} MicroIsLater(img: Image, units: nat, c: Cursor)
    requires CursorOf(img, c)
    requires MicroStep(img, units, c).Next?
    ensures Later(img, units, c, MicroStep(img, units, c).cursor)
  {
    var c' := MicroStep(img, units, c).cursor;
    if c'.elements == c.elements + 1 {
      var read := img.elements[..c'.elements];
      assert read[..|read| - 1] == img.elements[..c.elements];
    }
  }

  lemma LaterTransitive(img: Image, units: nat, a: Cursor, b: Cursor, c: Cursor)
    requires Later(img, units, a, b) && Later(img, units, b, c)
    ensures Later(img, units, a, c)
  {
    if a.checked {
      forall e: nat, i: nat | e < |img.elements| && i < |Inputs(img.elements[e])| && !Before(a, e, i) && Before(c, e, i)
        ensures Passes(Inputs(img.elements[e])[i], units)
      {
        if Before(b, e, i) {} else {}
      }
    }
  }

  /** One micro-step on from a place reached in an element, or its beginning. */
  lemma MicroOn(img: Image, units: nat, start: Cursor, c: Cursor)
    requires CursorOf(img, c) && (c == start || Later(img, units, start, c)) && MicroStep(img, units, c).Next?
    ensures var next := MicroStep(img, units, c).cursor;
      && CursorOf(img, next) && Later(img, units, start, next) && Left(img, next) < Left(img, c)
      && (next.elements == c.elements + 1 || (next.elements == c.elements && next.input > 0))
  {
    MicroIsLater(img, units, c);
    LaterOn(img, units, start, c, MicroStep(img, units, c).cursor);
  }

  /** A place reached, or none yet, and a later one. */
  lemma LaterOn(img: Image, units: nat, start: Cursor, c: Cursor, c': Cursor)
    requires c == start || Later(img, units, start, c)
    requires Later(img, units, c, c')
    ensures Later(img, units, start, c') && CursorOf(img, c') && Left(img, c') < Left(img, c)
  {
    if c != start { LaterTransitive(img, units, start, c, c'); }
  }

  /** A reading that comes to its end has folded every element and, when it checks spends, has
      found every script ahead of it allowed. */
  lemma {:induction false} RunToTheEnd(img: Image, units: nat, c: Cursor)
    requires CursorOf(img, c)
    requires Run(img, units, c).Whole?
    ensures var end := Run(img, units, c).cursor;
            && img.flaw.None?
            && CursorOf(img, end) && end.elements == |img.elements| && end.checked == c.checked
            && (c.checked ==> AllowedBetween(img, units, c, end))
    decreases Left(img, c)
  {
    var m := MicroStep(img, units, c);
    if m.Next? {
      MicroIsLater(img, units, c);
      RunToTheEnd(img, units, m.cursor);
      var end := Run(img, units, c).cursor;
      if c.checked {
        forall e: nat, i: nat | e < |img.elements| && i < |Inputs(img.elements[e])| && !Before(c, e, i)
            && Before(end, e, i)
          ensures Passes(Inputs(img.elements[e])[i], units)
        {
          if Before(m.cursor, e, i) {} else {}
        }
      }
    }
  }

  /** A reading comes to its end exactly when the stream has no flaw and, if it checks spends, every script
      ahead of it passes and no transaction ahead of it overpays. */
  lemma {:induction false} WholeExactly(img: Image, units: nat, c: Cursor)
    requires CursorOf(img, c)
    ensures Run(img, units, c).Whole? <==>
      && img.flaw.None?
      && (!c.checked || forall e: nat, i: nat ::
            e < |img.elements| && img.elements[e].Raw? && i < |img.elements[e].spends| && !Before(c, e, i) ==>
              img.elements[e].spends[i].work <= units && img.elements[e].spends[i].refused.None?)
      && (!c.checked || forall e: nat ::
            c.elements <= e < |img.elements| && img.elements[e].Raw? ==> img.elements[e].overpays.None?)
    decreases Left(img, c)
  {
    if Run(img, units, c).Whole? { RunToTheEnd(img, units, c); }
    var m := MicroStep(img, units, c);
    if m.Next? {
      MicroIsLater(img, units, c);
      WholeExactly(img, units, m.cursor);
    }
  }

  /** What refuses a reading at the place it has come to: the script of the input in hand, by its own refusal or
      because it is past the budget, a transaction that overpays, or the flaw of the stream. */
  predicate RefusedAt(img: Image, units: nat, at: Cursor, refusal: Refusal)
    requires WellPlaced(img, at)
  {
    if at.elements == |img.elements| then img.flaw == Some(refusal)
    else
      var e := img.elements[at.elements];
      && at.checked && e.Raw?
      && (if at.input < |e.spends| && e.spends[at.input].work > units
          then refusal == WorkDeclined(e.spends[at.input].offset, units)
          else if at.input < |e.spends| && e.spends[at.input].refused.Some?
          then Some(refusal) == e.spends[at.input].refused
          else at.input + 1 >= |e.spends| && Some(refusal) == e.overpays)
  }

  /** A reading that is refused is refused at a place it came to, everything before which was allowed. */
  lemma {:induction false} StoppedAt(img: Image, units: nat, c: Cursor) returns (at: Cursor)
    requires CursorOf(img, c) && Run(img, units, c).Stopped?
    ensures CursorOf(img, at) && at.checked == c.checked && (at == c || Later(img, units, c, at))
    ensures RefusedAt(img, units, at, Run(img, units, c).refusal)
    decreases Left(img, c)
  {
    var m := MicroStep(img, units, c);
    if m.Next? {
      MicroIsLater(img, units, c);
      at := StoppedAt(img, units, m.cursor);
      if at != m.cursor { LaterTransitive(img, units, c, m.cursor, at); }
    } else {
      at := c;
    }
  }

  // -------------------------------------------------------------------------
  // The reading loop
  // -------------------------------------------------------------------------

  datatype Reading = Valid(cursor: Cursor) | Refused(refusal: Refusal) | Paused(cursor: Cursor) | Failed

  /** What one reading may come to, wherever its slice ends. */
  ghost predicate ReadsTo(img: Image, units: nat, c: Cursor, r: Reading)
    requires WellPlaced(img, c)
  {
    match r
    case Valid(end) => Run(img, units, c) == Whole(end)
    case Refused(refusal) => Run(img, units, c) == Stopped(refusal)
    case Paused(c') => Later(img, units, c, c')
    case Failed => true
  }

  /** The budget of a request: its limits, and what it has used of them. */
  class Since {
    const millis: nat
    const started: nat
    const inputs: nat
    const weight: nat
    var ran: nat
    var weighed: nat

    constructor (millis: nat, inputs: nat, weight: nat, started: nat)
      ensures ran == 0 && weighed == 0
      ensures this.millis == millis && this.started == started && this.inputs == inputs && this.weight == weight
    {
      this.millis, this.started, this.inputs, this.weight := millis, started, inputs, weight;
      ran, weighed := 0, 0;
    }

    /** Whether the slice is spent.  The clock may answer anything. */
    method Spent() returns (spent: bool)
      ensures ran >= inputs || weighed >= weight ==> spent
    {
      var now: nat := *;
      spent := ran >= inputs || weighed >= weight || (if now < started then 0 else now - started) >= millis;
    }

    /** Asked between two inputs of a transaction of about `bytes`. */
    method SpentAnother(bytes: nat) returns (spent: bool)
      modifies this
      ensures ran == Min(old(ran) + 1, 18_446_744_073_709_551_615)
      ensures weighed == Min(old(weighed) + bytes, 18_446_744_073_709_551_615)
      ensures ran >= inputs || weighed >= weight ==> spent
    {
      ran := Min(ran + 1, U64_MAX);
      weighed := Min(weighed + bytes, U64_MAX);
      spent := Spent();
    }
  }

  datatype Timed = Pausing(at: Cursor) | Stepped(at: Cursor) | Ended(at: Cursor) | Refusing(why: Refusal)

  /** One element of the verifier under a slice: its inputs one at a time, the slice asked between
      two of them, so a pause has at least one input run. */
  method StepUntil(img: Image, units: nat, c: Cursor, since: Since?) returns (t: Timed)
    requires CursorOf(img, c)
    modifies since
    ensures match t
            case Pausing(c') => since != null && Later(img, units, c, c')
            case Stepped(c') => Later(img, units, c, c') && c'.elements == c.elements + 1
            case Ended(end) => end == c && Run(img, units, c) == Whole(end)
            case Refusing(refusal) => Run(img, units, c) == Stopped(refusal)
  {
    var at := c;
    while true
      invariant CursorOf(img, at) && (at == c || (Later(img, units, c, at) && at.input > 0))
      invariant at.elements == c.elements
      decreases Left(img, at)
    {
      match MicroStep(img, units, at)
      case Refuse(refusal) =>
        return Refusing(refusal);
      case Finish =>
        return Ended(at);
      case Next(next) =>
        MicroOn(img, units, c, at);
        if next.elements > at.elements {
          return Stepped(next);
        }
        at := next;
        if since != null {
          var bytes: nat := *;
          var spent := since.SpentAnother(bytes);
          if spent {
            return Pausing(at);
          }
        }
    }
  }

  /** The slice looked at, and the next of the `left` chunks fetched, or the end. */
  method Fetch(left: nat, steady: bool, since: Since?) returns (spent: bool, failed: bool, left': nat, ended: bool)
    ensures since == null ==> !spent
    ensures steady ==> !failed
    ensures ended <==> left == 0
    ensures left' == if left > 0 then left - 1 else 0
  {
    spent := false;
    if since != null { spent := since.Spent(); }
    failed := *;
    failed := failed && !steady;
    ended, left' := left == 0, if left > 0 then left - 1 else 0;
  }

  /**
   Runs the machine on `img` from a cursor, or from the start of a pass, and stops at its end or where the
   slice makes it.  `chunks` is how many chunks the source has left; the verifier may ask for the next one
   at any step while the source has not ended, and the source may fail unless it is `steady`.
   */
  method Read(img: Image, units: nat, from: Option<Cursor>, checked: bool, chunks: nat, steady: bool, since: Since?)
    returns (r: Reading)
    requires from.Some? ==> CursorOf(img, from.value)
    modifies since
    ensures ReadsTo(img, units, if from.Some? then from.value else Start(checked), r)
    ensures since == null ==> !r.Paused?
    ensures steady ==> !r.Failed?
  {
    var c := if from.Some? then from.value else Start(checked);
    ghost var start := c;
    var left, ended, pause := chunks, false, false;
    while true
      invariant CursorOf(img, c) && (c == start || Later(img, units, start, c))
      invariant since == null ==> !pause
      decreases if ended then 0 else 1, left, Left(img, c)
    {
      var wouldBlock: bool := *;
      if wouldBlock && !ended {
        var spent, failed;
        spent, failed, left, ended := Fetch(left, steady, since);
        pause := pause || spent;
        if failed { return Failed; }
      } else {
        var t := StepUntil(img, units, c, since);
        match t
        case Pausing(at) =>
          LaterOn(img, units, start, c, at);
          return Paused(at);
        case Stepped(at) =>
          LaterOn(img, units, start, c, at);
          c := at;
          if pause {
            return Paused(c);
          }
        case Ended(at) =>
          return Valid(at);
        case Refusing(refusal) =>
          return Refused(refusal);
      }
    }
  }
}
