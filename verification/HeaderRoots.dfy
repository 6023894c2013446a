/** The merkle roots of a reading, asked of the header service: lowest height first, one lookup per
    height, at most so many lookups a request. */
module HeaderRoots {
  import opened Prelude
  import opened Verifier

  const U32_SPAN: nat := 0x1_0000_0000

  /** The header service's answer for a height: the root it carries, or no answer. */
  datatype Lookup = Carries(hash: Hash) | NoAnswer

  /** One request's header service: the roots it answers, by height.  Within a request a height is
      looked up once, so its answers are a function of the height whatever the service does between
      requests. */
  type Headers = map<nat, Hash>

  function LookedUp(headers: Headers, height: nat): (r: Lookup) {
    if height in headers then Carries(headers[height]) else NoAnswer
  }

  // -------------------------------------------------------------------------
  // The roots of a reading as a strictly ascending list
  // -------------------------------------------------------------------------

  predicate Below(a: Root, b: Root) {
    a.height < b.height || (a.height == b.height && a.hash < b.hash)
  }

  predicate Ascending(roots: seq<Root>) {
    forall i, j :: 0 <= i < j < |roots| ==> Below(roots[i], roots[j])
  }

  /** `r` put at its place in a sorted list, or dropped when it is already there. */
  function Insert(r: Root, sorted: seq<Root>): (s: seq<Root>) {
    if sorted == [] then [r]
    else if r == sorted[0] then sorted
    else if Below(r, sorted[0]) then [r] + sorted
    else [sorted[0]] + Insert(r, sorted[1..])
  }

  /** The roots of a reading, sorted and without repeats. */
  function RootsOf(roots: seq<Root>): (s: seq<Root>) {
    if roots == [] then [] else Insert(roots[0], RootsOf(roots[1..]))
  }

  lemma {:induction false} InsertPlaces(r: Root, sorted: seq<Root>)
    requires Ascending(sorted)
    ensures Ascending(Insert(r, sorted))
    ensures forall x :: x in Insert(r, sorted) <==> x == r || x in sorted
  {
    if sorted != [] && r != sorted[0] && !Below(r, sorted[0]) {
      InsertPlaces(r, sorted[1..]);
      var rest := Insert(r, sorted[1..]);
      assert forall x :: x in sorted <==> x == sorted[0] || x in sorted[1..];
      forall k | 0 <= k < |rest| ensures Below(sorted[0], rest[k]) {
        assert rest[k] in rest;
      }
    }
  }

  /** The same roots, each once, lowest height first. */
  lemma {:induction false} RootsSorted(roots: seq<Root>)
    ensures Ascending(RootsOf(roots))
    ensures forall x :: x in RootsOf(roots) <==> x in roots
  {
    if roots != [] {
      RootsSorted(roots[1..]);
      InsertPlaces(roots[0], RootsOf(roots[1..]));
      assert forall x :: x in roots <==> x == roots[0] || x in roots[1..];
    }
  }

  /** Two strictly ascending lists of the same roots are the same list: `RootsOf` is the one
      answer sorting and deduplicating can give. */
  lemma {:induction false} AscendingUnique(a: seq<Root>, b: seq<Root>)
    requires Ascending(a) && Ascending(b)
    requires forall x :: x in a <==> x in b
    ensures a == b
  {
    assert |a| > 0 ==> a[0] in b;
    assert |b| > 0 ==> b[0] in a;
    if |a| > 0 {
      assert a[0] == b[0];
      forall x ensures x in a[1..] <==> x in b[1..] {
        if x in a[1..] {
          assert x in a && x != a[0];
          assert x in b;
        }
        if x in b[1..] {
          assert x in b && x != b[0];
          assert x in a;
        }
      }
      AscendingUnique(a[1..], b[1..]);
      assert a == [a[0]] + a[1..] && b == [b[0]] + b[1..];
    }
  }

  // -------------------------------------------------------------------------
  // Asking
  // -------------------------------------------------------------------------

  datatype Rooted =
    | NoProof
    | BadHeight(height: nat)
    | Mismatch(place: nat)
    | LookupFailed(place: nat)
    | AllCarried
    | LookupsSpent(place: nat)

  /** The height a lookup is made at: the cast to 32 bits. */
  function Asked(r: Root): (h: nat) {
    r.height % U32_SPAN
  }

  function HeightsAsked(roots: seq<Root>, from: nat, to: nat): (s: set<nat>)
    requires from <= to <= |roots|
  {
    set i | from <= i < to :: Asked(roots[i])
  }

  /** The lookups of a request are spent as it comes to `place`: a height not asked yet, and
      none left to ask it with. */
  predicate SpentAt(roots: seq<Root>, from: nat, lookups: Option<nat>, place: nat)
    requires from <= place < |roots|
  {
    && lookups.Some?
    && Asked(roots[place]) !in HeightsAsked(roots, from, place)
    && |HeightsAsked(roots, from, place)| >= lookups.value
  }

  predicate CarriedAt(roots: seq<Root>, headers: Headers, i: nat)
    requires i < |roots|
  {
    LookedUp(headers, Asked(roots[i])) == Carries(roots[i].hash)
  }

  predicate MismatchAt(roots: seq<Root>, headers: Headers, i: nat)
    requires i < |roots|
  {
    LookedUp(headers, Asked(roots[i])).Carries? && !CarriedAt(roots, headers, i)
  }

  predicate FailedAt(roots: seq<Root>, headers: Headers, i: nat)
    requires i < |roots|
  {
    LookedUp(headers, Asked(roots[i])).NoAnswer?
  }

  /** Every root in the range was asked within the lookups, and none was contradicted. */
  ghost predicate Walked(roots: seq<Root>, from: nat, lookups: Option<nat>, headers: Headers, to: nat)
    requires from <= to <= |roots|
  {
    forall i :: from <= i < to ==> !SpentAt(roots, from, lookups, i) && !MismatchAt(roots, headers, i)
  }

  /** `place` is the first root in the range whose lookup could not answer, or its end. */
  ghost predicate FirstFailure(roots: seq<Root>, headers: Headers, from: nat, to: nat, place: nat)
    requires from <= to <= |roots|
  {
    && from <= place <= to
    && (forall i :: from <= i < place ==> !FailedAt(roots, headers, i))
    && (place < to ==> FailedAt(roots, headers, place))
  }

  /** The asking from `from` on ended at `t` with the word `r`: at the end of its lookups, at a root
      the header does not carry, or at the end of the roots. */
  ghost predicate EndedAt(roots: seq<Root>, from: nat, lookups: Option<nat>, headers: Headers, t: nat, r: Rooted)
    requires from <= |roots|
  {
    && from <= t <= |roots|
    && Walked(roots, from, lookups, headers, t)
    && match r
       case NoProof => false
       case BadHeight(_) => false
       case Mismatch(p) => t == p < |roots| && !SpentAt(roots, from, lookups, t) && MismatchAt(roots, headers, t)
       case LookupFailed(p) => p < t == |roots| && FirstFailure(roots, headers, from, t, p)
       case AllCarried => t == |roots| && FirstFailure(roots, headers, from, t, t)
       case LookupsSpent(p) =>
         t < |roots| && SpentAt(roots, from, lookups, t) && FirstFailure(roots, headers, from, t, p)
  }

  /** What asking the roots from `from` on comes to, said of the whole list. */
  ghost predicate RootsSay(roots: seq<Root>, from: nat, lookups: Option<nat>, headers: Headers, r: Rooted)
    requires from <= |roots|
  {
    if roots == [] then r == NoProof
    else if roots[|roots| - 1].height >= U32_SPAN then r == BadHeight(roots[|roots| - 1].height)
    else exists t: nat :: EndedAt(roots, from, lookups, headers, t, r)
  }

  /** The heights the header service was asked for on the way to that word. */
  ghost predicate AskedOf(roots: seq<Root>, from: nat, lookups: Option<nat>, headers: Headers, r: Rooted,
                          heights: set<nat>)
    requires from <= |roots|
  {
    if roots == [] || roots[|roots| - 1].height >= U32_SPAN then heights == {}
    else exists t: nat ::
           EndedAt(roots, from, lookups, headers, t, r) && heights == HeightsAsked(roots, from, Reached(r, t))
  }

  /** A root the header does not carry was asked; one there was no lookup for was not. */
  function Reached(r: Rooted, t: nat): (to: nat) {
    if r.Mismatch? then t + 1 else t
  }

  /** One more root asked and not contradicted. */
  lemma WalkOn(roots: seq<Root>, from: nat, lookups: Option<nat>, headers: Headers, place: nat, failure: nat)
    requires from <= place < |roots|
    requires Walked(roots, from, lookups, headers, place) && FirstFailure(roots, headers, from, place, failure)
    requires !SpentAt(roots, from, lookups, place) && !MismatchAt(roots, headers, place)
    ensures Walked(roots, from, lookups, headers, place + 1)
    ensures FirstFailure(roots, headers, from, place + 1,
                         if failure < place || FailedAt(roots, headers, place) then failure else place + 1)
  {
  }

  lemma HeightsGrow(roots: seq<Root>, from: nat, lookups: Option<nat>, place: nat)
    requires from <= place < |roots|
    ensures HeightsAsked(roots, from, place + 1) == HeightsAsked(roots, from, place) + {Asked(roots[place])}
    ensures !SpentAt(roots, from, lookups, place) && lookups.Some?
            && |HeightsAsked(roots, from, place)| <= lookups.value ==>
              |HeightsAsked(roots, from, place + 1)| <= lookups.value
  {
    var now := HeightsAsked(roots, from, place);
    assert HeightsAsked(roots, from, place + 1) == now + {Asked(roots[place])};
    assert Asked(roots[place]) in now ==> now + {Asked(roots[place])} == now;
  }

  /** The answers kept are the header service's, and of just these heights. */
  ghost predicate Kept(answers: map<nat, Lookup>, headers: Headers, heights: set<nat>) {
    answers.Keys == heights && forall h :: h in answers ==> answers[h] == LookedUp(headers, h)
  }

  /** The answer for a height, kept: asked of the header service when it is not there yet. */
  method AnswerFor(answers: map<nat, Lookup>, h: nat, headers: Headers, ghost heights: set<nat>)
    returns (kept: map<nat, Lookup>, answer: Lookup)
    requires Kept(answers, headers, heights)
    ensures Kept(kept, headers, heights + {h}) && answer == LookedUp(headers, h)
  {
    kept := if h in answers then answers else answers[h := LookedUp(headers, h)];
    answer := kept[h];
    assert h in heights ==> heights + {h} == heights;
  }

  /** The asking has come to `place`: what it keeps says all of the roots behind it. */
  ghost predicate Asking(roots: seq<Root>, from: nat, lookups: Option<nat>, headers: Headers,
                         place: nat, answers: map<nat, Lookup>, failure: nat)
  {
    && from <= place <= |roots|
    && Kept(answers, headers, HeightsAsked(roots, from, place))
    && (lookups.Some? ==> |HeightsAsked(roots, from, place)| <= lookups.value)
    && Walked(roots, from, lookups, headers, place)
    && FirstFailure(roots, headers, from, place, failure)
  }

  /** The root at `place`: no lookup left for it, contradicted, or asked. */
  method AskOne(roots: seq<Root>, from: nat, lookups: Option<nat>, headers: Headers,
                place: nat, answers: map<nat, Lookup>, failure: nat)
    returns (word: Option<Rooted>, kept: map<nat, Lookup>, failure': nat)
    requires place < |roots| && Asking(roots, from, lookups, headers, place, answers, failure)
    ensures word.Some? ==> EndedAt(roots, from, lookups, headers, place, word.value)
    ensures word.Some? ==> kept.Keys == HeightsAsked(roots, from, Reached(word.value, place))
    ensures lookups.Some? ==> |kept.Keys| <= lookups.value
    ensures word.Some? && word.value.LookupsSpent? ==> lookups.Some? && |kept.Keys| == lookups.value
    ensures word.None? ==> Asking(roots, from, lookups, headers, place + 1, kept, failure')
  {
    var height := Asked(roots[place]);
    if height !in answers && lookups.Some? && |answers.Keys| >= lookups.value {
      return Some(LookupsSpent(failure)), answers, failure;
    }
    var answer;
    kept, answer := AnswerFor(answers, height, headers, HeightsAsked(roots, from, place));
    HeightsGrow(roots, from, lookups, place);
    if answer.Carries? && answer.hash != roots[place].hash {
      return Some(Mismatch(place)), kept, failure;
    }
    WalkOn(roots, from, lookups, headers, place, failure);
    word, failure' := None, if failure < place || answer.NoAnswer? then failure else place + 1;
  }

  /** The roots from `from` on, asked one at a time with the answers kept by height; `heights` are those asked. */
  method RootsWord(roots: seq<Root>, from: nat, lookups: Option<nat>, headers: Headers)
    returns (r: Rooted, heights: set<nat>)
    requires from <= |roots|
    ensures RootsSay(roots, from, lookups, headers, r) && AskedOf(roots, from, lookups, headers, r, heights)
    ensures lookups.Some? ==> |heights| <= lookups.value
    ensures r.LookupsSpent? ==> lookups.Some? && |heights| == lookups.value
  {
    if roots == [] {
      return NoProof, {};
    }
    if roots[|roots| - 1].height >= U32_SPAN {
      return BadHeight(roots[|roots| - 1].height), {};
    }
    // `failure` is the earliest unanswered place, and keeps up with `place` while there is none.
    var answers: map<nat, Lookup> := map[];
    var failure: nat, place: nat := from, from;
    while place < |roots|
      invariant Asking(roots, from, lookups, headers, place, answers, failure)
    {
      var word;
      word, answers, failure := AskOne(roots, from, lookups, headers, place, answers, failure);
      if word.Some? {
        return word.value, answers.Keys;
      }
      place := place + 1;
    }
    r := if failure < place then LookupFailed(failure) else AllCarried;
    assert EndedAt(roots, from, lookups, headers, place, r);
    heights := answers.Keys;
  }

  /** The word is one: no two answers fit the same request. */
  lemma RootsSayOne(roots: seq<Root>, from: nat, lookups: Option<nat>, headers: Headers, r: Rooted, r': Rooted)
    requires from <= |roots|
    requires RootsSay(roots, from, lookups, headers, r) && RootsSay(roots, from, lookups, headers, r')
    ensures r == r'
  {
    if roots != [] && roots[|roots| - 1].height < U32_SPAN {
      var t: nat :| EndedAt(roots, from, lookups, headers, t, r);
      var t': nat :| EndedAt(roots, from, lookups, headers, t', r');
      assert t == t';
    }
  }

  /** Below 2^32 the cast loses nothing, and the check of the last root is a check of them all. */
  lemma NoHeightTruncated(roots: seq<Root>, i: nat)
    requires Ascending(roots) && i < |roots|
    requires roots[|roots| - 1].height < U32_SPAN
    ensures Asked(roots[i]) == roots[i].height
  {
    assert i == |roots| - 1 || Below(roots[i], roots[|roots| - 1]);
  }

  /** Where a request stops, every root before it was asked of the header service and carried in this very
      request. */
  lemma CarriedUpTo(roots: seq<Root>, from: nat, lookups: Option<nat>, headers: Headers, r: Rooted, heights: set<nat>,
                    i: nat)
    requires from <= |roots|
    requires RootsSay(roots, from, lookups, headers, r) && AskedOf(roots, from, lookups, headers, r, heights)
    requires r.LookupsSpent? || r.LookupFailed? || r.AllCarried?
    requires from <= i < if r.AllCarried? then |roots| else r.place
    ensures i < |roots| && Asked(roots[i]) in heights && CarriedAt(roots, headers, i)
  {
    var t: nat :| EndedAt(roots, from, lookups, headers, t, r) && heights == HeightsAsked(roots, from, Reached(r, t));
    assert !MismatchAt(roots, headers, i) && !FailedAt(roots, headers, i);
  }

  /**
   When a request of spent lookups pauses where it began: exactly when it had no lookup to make,
   or the root there could not be answered and the lookups ran out further on.
   */
  lemma StuckExactly(roots: seq<Root>, from: nat, lookups: nat, headers: Headers, place: nat)
    requires from <= |roots|
    requires RootsSay(roots, from, Some(lookups), headers, LookupsSpent(place))
    ensures from <= place < |roots|
    ensures place == from <==> lookups == 0 || FailedAt(roots, headers, from)
  {
    var t: nat :| EndedAt(roots, from, Some(lookups), headers, t, LookupsSpent(place));
    assert HeightsAsked(roots, from, from) == {};
    if lookups == 0 {
      assert SpentAt(roots, from, Some(0), from);
    }
  }
}
