/**
 The door over whole runs of requests: a sliced verification comes to the verdict of one unsliced
 pass, `Verified` is earned even when the object, the terms and the header service change between
 requests, and a run of pending answers ends.
 */
module DoorRuns {
  import opened Prelude
  import opened Verifier
  import opened HeaderRoots
  import opened PaymentDoor
  import opened DoorWords

  /** The bytes an upload holds: an etag and a size name one upload. */
  type Uploads = Stamp -> Image

  function SavedBefore(outs: seq<Outcome>, i: nat): (r: Option<Rest>)
    requires i <= |outs|
  {
    if i == 0 then None else outs[i - 1].saved
  }

  ghost predicate SavedTrusted(uploads: Uploads, saved: Option<Rest>) {
    saved.Some? ==> Trusted(uploads(saved.value.stamp), saved.value)
  }

  /** One request: no header service, no object, or the door.  It works from the state it loaded, and
      leaves the current one where it writes none.  Of a state that is not of its upload nothing is
      said; the lemmas below show that no run ever saves one. */
  ghost predicate Serve(uploads: Uploads, loaded: Option<Rest>, current: Option<Rest>, req: Request, out: Outcome) {
    SavedTrusted(uploads, loaded) ==>
      (if req.headers.None? then out == Outcome(current, Done(NoHeaderService), {})
       else if req.stamp.None? then out == Outcome(current, NotFound, {})
       else Faulted(current, out) || TurnOf(uploads(req.stamp.value), req.stamp.value, req, loaded, out))
  }

  /** The requests of a key in the order of their writes.  Request `i` loaded what the first `from[i]` of
      them left: requests overlap, and nothing keeps one from writing over another. */
  ghost predicate OverlapOf(uploads: Uploads, reqs: seq<Request>, outs: seq<Outcome>, from: seq<nat>) {
    && |outs| == |reqs| == |from|
    && forall i: nat :: i < |reqs| ==> from[i] <= i && ServedAt(uploads, reqs, outs, from[i], i)
  }

  /** A run: each request served from the state the one before left.  An answer lost on its way
      is an answer nobody looks at. */
  ghost predicate RunOf(uploads: Uploads, reqs: seq<Request>, outs: seq<Outcome>) {
    && |outs| == |reqs|
    && forall i: nat :: i < |reqs| ==> ServedAt(uploads, reqs, outs, i, i)
  }

  ghost predicate ServedAt(uploads: Uploads, reqs: seq<Request>, outs: seq<Outcome>, from: nat, i: nat)
    requires |outs| == |reqs| && from <= i < |reqs|
  {
    Serve(uploads, SavedBefore(outs, from), SavedBefore(outs, i), reqs[i], outs[i])
  }

  function OneByOne(n: nat): (from: seq<nat>) {
    seq(n, i => i)
  }

  /** A run is the overlap in which every request waits for the one before. */
  lemma RunIsOverlap(uploads: Uploads, reqs: seq<Request>, outs: seq<Outcome>)
    requires RunOf(uploads, reqs, outs)
    ensures OverlapOf(uploads, reqs, outs, OneByOne(|reqs|))
  {
    var from := OneByOne(|reqs|);
    forall i: nat | i < |reqs| ensures from[i] == i && ServedAt(uploads, reqs, outs, from[i], i) {
      assert ServedAt(uploads, reqs, outs, i, i);
    }
  }

  // -------------------------------------------------------------------------
  // Sliced equals whole
  // -------------------------------------------------------------------------

  /** What a saved state means for the unsliced pass it is a part of. */
  ghost predicate PartOfWhole(img: Image, terms: Terms, units: nat, headers: Headers, rest: Rest) {
    && Trusted(img, rest)
    && (rest.phase.Structure? ==> Run(img, units, rest.cursor) == Run(img, units, Start(false)))
    && (!rest.phase.Structure? ==>
          && Run(img, units, Start(false)).Whole?
          && OutputWord(Run(img, units, Start(false)).cursor.tip, terms).Pays?)
    && (rest.phase.Scripts? ==> Run(img, units, rest.cursor) == Run(img, units, Start(true)))
    && (rest.phase.Roots? ==>
          && Run(img, units, Start(true)) == Whole(rest.cursor)
          && forall i :: 0 <= i < rest.asked ==> CarriedAt(RootsOf(rest.cursor.roots), headers, i))
  }

  ghost predicate SavedPart(img: Image, stamp: Stamp, terms: Terms, units: nat, headers: Headers, saved: Option<Rest>) {
    saved.Some? ==> saved.value.stamp == stamp && PartOfWhole(img, terms, units, headers, saved.value)
  }

  /** What a request leaves is a part of the unsliced pass, and what it answers is that pass's word. */
  ghost predicate SlicedOut(img: Image, stamp: Stamp, terms: Terms, units: nat, headers: Headers, out: Outcome) {
    && SavedPart(img, stamp, terms, units, headers, out.saved)
    && (out.answer.Done? ==> WholeSays(img, terms, units, headers, out.answer.word))
  }

  /** Roots asked in several requests of one steady header service come to the word of asking them
      all at once. */
  lemma RootsResumed(roots: seq<Root>, from: nat, lookups: Option<nat>, headers: Headers, r: Rooted)
    requires from <= |roots|
    requires forall i :: 0 <= i < from ==> CarriedAt(roots, headers, i)
    requires RootsSay(roots, from, lookups, headers, r) && !r.LookupsSpent?
    ensures RootsSay(roots, 0, None, headers, r)
  {
    if roots != [] && roots[|roots| - 1].height < U32_SPAN {
      var t: nat :| EndedAt(roots, from, lookups, headers, t, r);
      forall i | 0 <= i < from ensures !MismatchAt(roots, headers, i) && !FailedAt(roots, headers, i) {
        assert CarriedAt(roots, headers, i);
      }
      assert EndedAt(roots, 0, None, headers, t, r);
    }
  }

  /** Where a request stops short of the roots' end, all before it is carried. */
  lemma RootsPausedSliced(roots: seq<Root>, asked: nat, lookups: nat, headers: Headers, r: Rooted, heights: set<nat>)
    requires asked <= |roots| && RootsSay(roots, asked, Some(lookups), headers, r)
    requires AskedOf(roots, asked, Some(lookups), headers, r, heights)
    requires (r.LookupsSpent? || r.LookupFailed?) && r.place < |roots|
    requires forall i :: 0 <= i < asked ==> CarriedAt(roots, headers, i)
    ensures forall i :: 0 <= i < r.place ==> CarriedAt(roots, headers, i)
  {
    forall i | 0 <= i < r.place ensures CarriedAt(roots, headers, i) {
      if asked <= i { CarriedUpTo(roots, asked, Some(lookups), headers, r, heights, i); }
    }
  }

  lemma RootsDoneSliced(roots: seq<Root>, asked: nat, lookups: Option<nat>, headers: Headers, r: Rooted, paid: Paid,
                        w: Word)
    requires paid.Pays? && asked <= |roots|
    requires RootsSay(roots, asked, lookups, headers, r) && RootsMean(roots, r, paid, w)
    requires forall i :: 0 <= i < asked ==> CarriedAt(roots, headers, i)
    ensures RootsWhole(roots, headers, paid, w)
  {
    RootsResumed(roots, asked, lookups, headers, r);
  }

  lemma RootsTurnSliced(img: Image, stamp: Stamp, req: Request, c: Cursor, asked: nat, known: Option<Paid>,
                        out: Outcome)
    requires req.headers.Some? && (known.Some? ==> known.value.Pays?)
    requires Trusted(img, Rest(stamp, Roots, asked, c))
    requires PartOfWhole(img, req.terms, req.units, req.headers.value, Rest(stamp, Roots, asked, c))
    requires known.Some? ==> known.value == OutputWord(Run(img, req.units, Start(false)).cursor.tip, req.terms)
    requires RootsTurn(stamp, req, c, asked, known, out)
    ensures SlicedOut(img, stamp, req.terms, req.units, req.headers.value, out)
  {
    PassesAgree(img, req.units, req.units);
    var paid := if known.Some? then known.value else OutputWord(c.tip, req.terms);
    var roots, headers := RootsOf(c.roots), req.headers.value;
    var r :| RootsSay(roots, asked, Some(req.lookups), headers, r)
              && AskedOf(roots, asked, Some(req.lookups), headers, r, out.heights)
              && RootsLeave(stamp, c, r, paid, out);
    if r.LookupsSpent? { StuckExactly(roots, asked, req.lookups, headers, r.place); }
    if r.LookupsSpent? || r.LookupFailed? {
      RootsPausedSliced(roots, asked, req.lookups, headers, r, out.heights);
    }
    if !r.LookupsSpent? {
      RootsDoneSliced(roots, asked, Some(req.lookups), headers, r, paid, out.answer.word);
      WholeAtRoots(img, req.terms, req.units, headers, c, paid, out.answer.word);
    }
  }

  lemma WholeAtRoots(img: Image, terms: Terms, units: nat, headers: Headers, end: Cursor, paid: Paid, w: Word)
    requires Run(img, units, Start(false)).Whole?
    requires paid == OutputWord(Run(img, units, Start(false)).cursor.tip, terms) && paid.Pays?
    requires Run(img, units, Start(true)) == Whole(end) && RootsWhole(RootsOf(end.roots), headers, paid, w)
    ensures WholeSays(img, terms, units, headers, w)
  {
  }

  lemma ScriptsTurnSliced(img: Image, stamp: Stamp, req: Request, c: Cursor, known: Option<Paid>, out: Outcome)
    requires req.headers.Some? && (known.Some? ==> known.value.Pays?)
    requires PartOfWhole(img, req.terms, req.units, req.headers.value, Rest(stamp, Scripts, 0, c))
    requires known.Some? ==> known.value == OutputWord(Run(img, req.units, Start(false)).cursor.tip, req.terms)
    requires ScriptsTurn(img, stamp, req, c, known, out)
    ensures SlicedOut(img, stamp, req.terms, req.units, req.headers.value, out)
  {
    if c' :| Later(img, req.units, c, c') && out == PendingAt(Rest(stamp, Scripts, 0, c'), {}) {
    } else if Run(img, req.units, c).Whole? {
      var end := Run(img, req.units, c).cursor;
      RunToTheEnd(img, req.units, c);
      RootsTurnSliced(img, stamp, req, end, 0, known, out);
    }
  }

  lemma StructureTurnSliced(img: Image, stamp: Stamp, req: Request, c: Cursor, out: Outcome)
    requires req.headers.Some?
    requires PartOfWhole(img, req.terms, req.units, req.headers.value, Rest(stamp, Structure, 0, c))
    requires StructureTurn(img, stamp, req, c, out)
    ensures SlicedOut(img, stamp, req.terms, req.units, req.headers.value, out)
  {
    if c' :| Later(img, req.units, c, c') && out == PendingAt(Rest(stamp, Structure, 0, c'), {}) {
    } else if Run(img, req.units, c).Whole? {
      var end := Run(img, req.units, c).cursor;
      if OutputWord(end.tip, req.terms).Pays? {
        ScriptsTurnSliced(img, stamp, req, Start(true), Some(OutputWord(end.tip, req.terms)), out);
      }
    }
  }

  /** Every request of the run is about the same upload, under the same terms and work budget, with
      a header service that at each height always answers alike or always fails to. */
  ghost predicate Steady(reqs: seq<Request>, stamp: Stamp, terms: Terms, units: nat, headers: Headers) {
    forall i :: 0 <= i < |reqs| ==>
      && reqs[i].stamp == Some(stamp) && reqs[i].terms == terms && reqs[i].units == units
      && reqs[i].headers == Some(headers)
  }

  lemma TurnSliced(img: Image, stamp: Stamp, req: Request, loaded: Option<Rest>, out: Outcome)
    requires req.headers.Some?
    requires SavedPart(img, stamp, req.terms, req.units, req.headers.value, loaded)
    requires TurnOf(img, stamp, req, loaded, out)
    ensures SlicedOut(img, stamp, req.terms, req.units, req.headers.value, out)
  {
    if loaded.None? {
      StructureTurnSliced(img, stamp, req, Start(false), out);
    } else {
      match loaded.value.phase
      case Structure => StructureTurnSliced(img, stamp, req, loaded.value.cursor, out);
      case Scripts => ScriptsTurnSliced(img, stamp, req, loaded.value.cursor, None, out);
      case Roots => RootsTurnSliced(img, stamp, req, loaded.value.cursor, loaded.value.asked, None, out);
    }
  }

  lemma ServeSliced(uploads: Uploads, reqs: seq<Request>, outs: seq<Outcome>, from: seq<nat>,
                    stamp: Stamp, terms: Terms, units: nat, headers: Headers, k: nat)
    requires OverlapOf(uploads, reqs, outs, from) && Steady(reqs, stamp, terms, units, headers)
    requires k < |reqs| && forall i :: 0 <= i < k ==> SlicedOut(uploads(stamp), stamp, terms, units, headers, outs[i])
    ensures SlicedOut(uploads(stamp), stamp, terms, units, headers, outs[k])
  {
    assert ServedAt(uploads, reqs, outs, from[k], k);
    assert reqs[k].terms == terms && reqs[k].units == units && reqs[k].headers == Some(headers);
    if !Faulted(SavedBefore(outs, k), outs[k]) {
      TurnSliced(uploads(stamp), stamp, reqs[k], SavedBefore(outs, from[k]), outs[k]);
    }
  }

  /**
   Sliced equals whole.  For steady requests, overlapping as they may, whatever the chunks, the slices
   and the lookups of each, and wherever each pauses, every state saved is a part of the one unsliced
   pass, and every verdict answered is that pass's: also that of a root the header service cannot
   answer for.
   */
  lemma {:induction false} SlicedEqualsWhole(uploads: Uploads, reqs: seq<Request>, outs: seq<Outcome>, from: seq<nat>,
                                             stamp: Stamp, terms: Terms, units: nat, headers: Headers, n: nat)
    requires OverlapOf(uploads, reqs, outs, from) && Steady(reqs, stamp, terms, units, headers)
    requires n <= |reqs|
    ensures forall i :: 0 <= i < n ==> SlicedOut(uploads(stamp), stamp, terms, units, headers, outs[i])
  {
    if n > 0 {
      SlicedEqualsWhole(uploads, reqs, outs, from, stamp, terms, units, headers, n - 1);
      ServeSliced(uploads, reqs, outs, from, stamp, terms, units, headers, n - 1);
    }
  }

  /** So every verdict of such requests means what it says of the upload, and no other word would. */
  lemma SlicedMeans(uploads: Uploads, reqs: seq<Request>, outs: seq<Outcome>, from: seq<nat>,
                    stamp: Stamp, terms: Terms, units: nat, headers: Headers, k: nat, w: Word)
    requires OverlapOf(uploads, reqs, outs, from) && Steady(reqs, stamp, terms, units, headers)
    requires k < |reqs| && outs[k].answer.Done?
    ensures WordMeans(uploads(stamp), terms, units, headers, w) <==> w == outs[k].answer.word
  {
    SlicedEqualsWhole(uploads, reqs, outs, from, stamp, terms, units, headers, k + 1);
    WholeMeans(uploads(stamp), terms, units, headers, outs[k].answer.word);
    if WordMeans(uploads(stamp), terms, units, headers, w) {
      MeansWhole(uploads(stamp), terms, units, headers, outs[k].answer.word, w);
    }
  }

  // -------------------------------------------------------------------------
  // What `Verified` takes, whatever changes between requests
  // -------------------------------------------------------------------------

  /** The spend's script is allowed under the work budget of some request of the first `k` on this upload. */
  ghost predicate Allowed(reqs: seq<Request>, k: nat, stamp: Stamp, s: Spend)
    requires k <= |reqs|
  {
    s.refused.None? && exists j :: 0 <= j < k && reqs[j].stamp == Some(stamp) && s.work <= reqs[j].units
  }

  /** Some request of the first `k` on this upload asked the header service for this root's height and was answered
      with it. */
  ghost predicate Confirmed(reqs: seq<Request>, outs: seq<Outcome>, k: nat, stamp: Stamp, root: Root)
    requires k <= |reqs| == |outs|
  {
    exists j :: 0 <= j < k && reqs[j].stamp == Some(stamp) && reqs[j].headers.Some? && Asked(root) in outs[j].heights
                && LookedUp(reqs[j].headers.value, Asked(root)) == Carries(root.hash)
  }

  /** The same of a root at the height it claims, with the answer written out. */
  ghost predicate SeenCarried(reqs: seq<Request>, outs: seq<Outcome>, k: nat, stamp: Stamp, root: Root)
    requires k <= |reqs| == |outs|
  {
    exists j :: 0 <= j < k && reqs[j].stamp == Some(stamp) && reqs[j].headers.Some? && root.height in outs[j].heights
                && root.height in reqs[j].headers.value && reqs[j].headers.value[root.height] == root.hash
  }

  /** Every script before the cursor was allowed, and nothing folded before it overpays. */
  ghost predicate AllowedUpTo(reqs: seq<Request>, k: nat, stamp: Stamp, img: Image, c: Cursor)
    requires k <= |reqs|
  {
    && (forall e: nat, i: nat :: e < |img.elements| && i < |Inputs(img.elements[e])| && Before(c, e, i) ==>
          Allowed(reqs, k, stamp, Inputs(img.elements[e])[i]))
    && (forall e: nat :: e < |img.elements| && e < c.elements && img.elements[e].Raw? ==>
          img.elements[e].overpays.None?)
  }

  /** What the requests so far have established about a saved state's upload. */
  ghost predicate Earned(reqs: seq<Request>, outs: seq<Outcome>, k: nat, img: Image, rest: Rest)
    requires k <= |reqs| == |outs|
  {
    && Trusted(img, rest)
    && (!rest.phase.Structure? ==> img.flaw.None? && AllowedUpTo(reqs, k, rest.stamp, img, rest.cursor))
    && (rest.phase.Roots? ==>
          var roots := RootsOf(rest.cursor.roots);
          forall i :: 0 <= i < rest.asked ==> Confirmed(reqs, outs, k, rest.stamp, roots[i]))
  }

  /** Every script of the object ended well, within the work budget of some request on this upload, and no
      transaction of it pays out more than it spends. */
  ghost predicate ScriptsEarned(reqs: seq<Request>, n: nat, stamp: Stamp, img: Image)
    requires n <= |reqs|
  {
    && (forall e: nat, i: nat :: e < |img.elements| && img.elements[e].Raw? && i < |img.elements[e].spends| ==>
          Allowed(reqs, n, stamp, img.elements[e].spends[i]))
    && (forall e: nat :: e < |img.elements| && img.elements[e].Raw? ==> img.elements[e].overpays.None?)
  }

  /** The object has a root, and each of its roots was seen carried at its full height. */
  ghost predicate RootsEarned(reqs: seq<Request>, outs: seq<Outcome>, n: nat, stamp: Stamp, img: Image)
    requires n <= |reqs| == |outs|
  {
    && (exists root :: HasRoot(img, root))
    && forall root :: HasRoot(img, root) ==>
         root.height < 0x1_0000_0000 && SeenCarried(reqs, outs, n, stamp, root)
  }

  /** All that a `Verified` is made of: the structure and every script of the one upload, the
      output under the answering request's own terms, and every root. */
  ghost predicate FullyVerified(reqs: seq<Request>, outs: seq<Outcome>, n: nat, stamp: Stamp, terms: Terms,
                                img: Image, satoshis: nat, subject: Hash)
    requires n <= |reqs| == |outs|
  {
    && img.flaw.None?
    && ScriptsEarned(reqs, n, stamp, img)
    && PaysUnder(img, terms, satoshis, subject)
    && RootsEarned(reqs, outs, n, stamp, img)
  }

  ghost predicate SavedEarned(reqs: seq<Request>, outs: seq<Outcome>, n: nat, uploads: Uploads, saved: Option<Rest>)
    requires n <= |reqs| == |outs|
  {
    saved.Some? ==> Earned(reqs, outs, n, uploads(saved.value.stamp), saved.value)
  }

  /** What the last of the first `n` requests leaves and answers is earned by those `n`. */
  ghost predicate EarnedOut(reqs: seq<Request>, outs: seq<Outcome>, n: nat, uploads: Uploads, out: Outcome)
    requires 1 <= n <= |reqs| == |outs|
  {
    var req := reqs[n - 1];
    && SavedEarned(reqs, outs, n, uploads, out.saved)
    && (out.answer.Done? && out.answer.word.Verified? ==>
          && req.stamp.Some?
          && FullyVerified(reqs, outs, n, req.stamp.value, req.terms, uploads(req.stamp.value),
                           out.answer.word.satoshis, out.answer.word.subject))
  }

  /** A later cursor of the same upload, reached under the work budget of the last request. */
  lemma AllowedFurther(reqs: seq<Request>, n: nat, stamp: Stamp, img: Image, c: Cursor, c': Cursor)
    requires 1 <= n <= |reqs| && reqs[n - 1].stamp == Some(stamp)
    requires AllowedUpTo(reqs, n - 1, stamp, img, c) && AllowedBetween(img, reqs[n - 1].units, c, c')
    ensures AllowedUpTo(reqs, n, stamp, img, c')
  {
    forall e: nat, i: nat | e < |img.elements| && i < |Inputs(img.elements[e])| && Before(c', e, i)
      ensures Allowed(reqs, n, stamp, Inputs(img.elements[e])[i])
    {
      if Before(c, e, i) {
        assert Allowed(reqs, n - 1, stamp, Inputs(img.elements[e])[i]);
      }
    }
  }

  /** The roots of `roots[..upTo]` are confirmed once the last request asked those from `asked` on. */
  lemma ConfirmedUpTo(reqs: seq<Request>, outs: seq<Outcome>, n: nat, stamp: Stamp, roots: seq<Root>, asked: nat,
                      r: Rooted, upTo: nat)
    requires 1 <= n <= |reqs| == |outs| && reqs[n - 1].stamp == Some(stamp) && reqs[n - 1].headers.Some?
    requires asked <= |roots| && RootsSay(roots, asked, Some(reqs[n - 1].lookups), reqs[n - 1].headers.value, r)
    requires AskedOf(roots, asked, Some(reqs[n - 1].lookups), reqs[n - 1].headers.value, r, outs[n - 1].heights)
    requires r.LookupsSpent? || r.LookupFailed? || r.AllCarried?
    requires upTo == (if r.AllCarried? then |roots| else r.place) && upTo <= |roots|
    requires forall i :: 0 <= i < asked ==> Confirmed(reqs, outs, n - 1, stamp, roots[i])
    ensures forall i :: 0 <= i < upTo ==> Confirmed(reqs, outs, n, stamp, roots[i])
  {
    var req := reqs[n - 1];
    forall i | 0 <= i < upTo ensures Confirmed(reqs, outs, n, stamp, roots[i]) {
      if asked <= i {
        CarriedUpTo(roots, asked, Some(req.lookups), req.headers.value, r, outs[n - 1].heights, i);
      } else {
        assert Confirmed(reqs, outs, n - 1, stamp, roots[i]);
      }
    }
  }

  /** The roots in their order confirmed are the roots of the object confirmed, each at the
      height it claims. */
  lemma VerifiedRoots(reqs: seq<Request>, outs: seq<Outcome>, n: nat, stamp: Stamp, img: Image)
    requires n <= |reqs| == |outs|
    requires var roots := RootsOf(RootsIn(img.elements));
      && roots != [] && roots[|roots| - 1].height < U32_SPAN
      && forall i :: 0 <= i < |roots| ==> Confirmed(reqs, outs, n, stamp, roots[i])
    ensures RootsEarned(reqs, outs, n, stamp, img)
  {
    var roots := RootsOf(RootsIn(img.elements));
    RootsOfAre(img);
    assert roots[0] in roots;
    forall root | HasRoot(img, root)
      ensures root.height < U32_SPAN && SeenCarried(reqs, outs, n, stamp, root)
    {
      var i :| 0 <= i < |roots| && roots[i] == root;
      NoHeightTruncated(roots, i);
      assert Confirmed(reqs, outs, n, stamp, roots[i]);
    }
  }

  lemma VerifiedScripts(reqs: seq<Request>, n: nat, stamp: Stamp, img: Image, c: Cursor)
    requires n <= |reqs| && AllowedUpTo(reqs, n, stamp, img, c) && c.elements == |img.elements|
    ensures ScriptsEarned(reqs, n, stamp, img)
  {
    forall e: nat, i: nat | e < |img.elements| && img.elements[e].Raw? && i < |img.elements[e].spends|
      ensures Allowed(reqs, n, stamp, img.elements[e].spends[i])
    {
      assert Inputs(img.elements[e])[i] == img.elements[e].spends[i] && Before(c, e, i);
    }
  }

  /** The state a request leaves at the roots: what it asked and what was asked before is confirmed. */
  lemma RootsSavedEarned(uploads: Uploads, reqs: seq<Request>, outs: seq<Outcome>, n: nat, stamp: Stamp,
                         c: Cursor, asked: nat, r: Rooted)
    requires 1 <= n <= |reqs| == |outs| && reqs[n - 1].headers.Some? && reqs[n - 1].stamp == Some(stamp)
    requires Trusted(uploads(stamp), Rest(stamp, Roots, asked, c))
    requires uploads(stamp).flaw.None? && AllowedUpTo(reqs, n, stamp, uploads(stamp), c)
    requires forall i :: 0 <= i < asked ==> Confirmed(reqs, outs, n - 1, stamp, RootsOf(c.roots)[i])
    requires RootsSay(RootsOf(c.roots), asked, Some(reqs[n - 1].lookups), reqs[n - 1].headers.value, r)
    requires AskedOf(RootsOf(c.roots), asked, Some(reqs[n - 1].lookups), reqs[n - 1].headers.value, r,
                     outs[n - 1].heights)
    requires (r.LookupsSpent? || r.LookupFailed?) && r.place < |RootsOf(c.roots)|
    ensures SavedEarned(reqs, outs, n, uploads, Some(Rest(stamp, Roots, r.place, c)))
  {
    ConfirmedUpTo(reqs, outs, n, stamp, RootsOf(c.roots), asked, r, r.place);
  }

  /** Every root confirmed is all that a `Verified` still lacked. */
  lemma RootsAllEarned(reqs: seq<Request>, outs: seq<Outcome>, n: nat, stamp: Stamp, img: Image, c: Cursor,
                       asked: nat, satoshis: nat, subject: Hash)
    requires 1 <= n <= |reqs| == |outs| && reqs[n - 1].headers.Some? && reqs[n - 1].stamp == Some(stamp)
    requires Trusted(img, Rest(stamp, Roots, asked, c)) && img.flaw.None? && AllowedUpTo(reqs, n, stamp, img, c)
    requires forall i :: 0 <= i < asked ==> Confirmed(reqs, outs, n - 1, stamp, RootsOf(c.roots)[i])
    requires RootsSay(RootsOf(c.roots), asked, Some(reqs[n - 1].lookups), reqs[n - 1].headers.value, AllCarried)
    requires AskedOf(RootsOf(c.roots), asked, Some(reqs[n - 1].lookups), reqs[n - 1].headers.value, AllCarried,
                     outs[n - 1].heights)
    requires OutputWord(c.tip, reqs[n - 1].terms) == Pays(subject, satoshis)
    ensures FullyVerified(reqs, outs, n, stamp, reqs[n - 1].terms, img, satoshis, subject)
  {
    var roots := RootsOf(c.roots);
    assert img.elements[..|img.elements|] == img.elements;
    ConfirmedUpTo(reqs, outs, n, stamp, roots, asked, AllCarried, |roots|);
    VerifiedRoots(reqs, outs, n, stamp, img);
    VerifiedScripts(reqs, n, stamp, img, c);
    PaidIs(img, reqs[n - 1].terms, Pays(subject, satoshis));
  }

  lemma RootsTurnEarned(uploads: Uploads, reqs: seq<Request>, outs: seq<Outcome>, n: nat, stamp: Stamp, img: Image,
                        c: Cursor, asked: nat, known: Option<Paid>, out: Outcome)
    requires 1 <= n <= |reqs| == |outs| && reqs[n - 1].headers.Some? && reqs[n - 1].stamp == Some(stamp)
    requires img == uploads(stamp)
    requires known.Some? ==> known.value.Pays? && known.value == OutputWord(c.tip, reqs[n - 1].terms)
    requires Trusted(img, Rest(stamp, Roots, asked, c)) && img.flaw.None? && AllowedUpTo(reqs, n, stamp, img, c)
    requires forall i :: 0 <= i < asked ==> Confirmed(reqs, outs, n - 1, stamp, RootsOf(c.roots)[i])
    requires RootsTurn(stamp, reqs[n - 1], c, asked, known, out)
    requires out == outs[n - 1]
    ensures EarnedOut(reqs, outs, n, uploads, out)
  {
    var req := reqs[n - 1];
    var paid := OutputWord(c.tip, req.terms);
    if paid.Pays? {
      var roots := RootsOf(c.roots);
      var r :| RootsSay(roots, asked, Some(req.lookups), req.headers.value, r)
              && AskedOf(roots, asked, Some(req.lookups), req.headers.value, r, out.heights)
              && RootsLeave(stamp, c, r, paid, out);
      match r
      case LookupsSpent(place) =>
        StuckExactly(roots, asked, req.lookups, req.headers.value, place);
        RootsSavedEarned(uploads, reqs, outs, n, stamp, c, asked, r);
      case LookupFailed(place) =>
        RootsSavedEarned(uploads, reqs, outs, n, stamp, c, asked, r);
      case AllCarried =>
        RootsAllEarned(reqs, outs, n, stamp, img, c, asked, paid.satoshis, paid.txid);
      case _ =>
    }
  }

  lemma ScriptsTurnEarned(uploads: Uploads, reqs: seq<Request>, outs: seq<Outcome>, n: nat, stamp: Stamp, img: Image,
                          c: Cursor, known: Option<Paid>, out: Outcome)
    requires 1 <= n <= |reqs| == |outs| && reqs[n - 1].headers.Some? && reqs[n - 1].stamp == Some(stamp)
    requires img == uploads(stamp)
    requires known.Some? ==> known.value.Pays? && known.value == OutputWord(TipIn(img.elements), reqs[n - 1].terms)
    requires CursorOf(img, c) && c.checked && img.flaw.None? && AllowedUpTo(reqs, n - 1, stamp, img, c)
    requires ScriptsTurn(img, stamp, reqs[n - 1], c, known, out)
    requires out == outs[n - 1]
    ensures EarnedOut(reqs, outs, n, uploads, out)
  {
    var req := reqs[n - 1];
    if c' :| Later(img, req.units, c, c') && out == PendingAt(Rest(stamp, Scripts, 0, c'), {}) {
      AllowedFurther(reqs, n, stamp, img, c, c');
    } else if Run(img, req.units, c).Whole? {
      var end := Run(img, req.units, c).cursor;
      RunToTheEnd(img, req.units, c);
      AllowedFurther(reqs, n, stamp, img, c, end);
      assert img.elements[..|img.elements|] == img.elements;
      RootsTurnEarned(uploads, reqs, outs, n, stamp, img, end, 0, known, out);
    }
  }

  /** The scripts turn of a request that has just judged the output itself. */
  lemma FreshScriptsEarned(uploads: Uploads, reqs: seq<Request>, outs: seq<Outcome>, n: nat, stamp: Stamp, img: Image,
                           end: Cursor, out: Outcome)
    requires 1 <= n <= |reqs| == |outs| && reqs[n - 1].headers.Some? && reqs[n - 1].stamp == Some(stamp)
    requires img == uploads(stamp)
    requires CursorOf(img, end) && end.elements == |img.elements| && img.flaw.None?
    requires OutputWord(end.tip, reqs[n - 1].terms).Pays?
    requires ScriptsTurn(img, stamp, reqs[n - 1], Start(true), Some(OutputWord(end.tip, reqs[n - 1].terms)), out)
    requires out == outs[n - 1]
    ensures EarnedOut(reqs, outs, n, uploads, out)
  {
    assert img.elements[..|img.elements|] == img.elements;
    var paid := OutputWord(end.tip, reqs[n - 1].terms);
    ScriptsTurnEarned(uploads, reqs, outs, n, stamp, img, Start(true), Some(paid), out);
  }

  lemma StructurePauseEarned(uploads: Uploads, reqs: seq<Request>, outs: seq<Outcome>, n: nat, stamp: Stamp,
                             img: Image, c: Cursor)
    requires 1 <= n <= |reqs| == |outs| && img == uploads(stamp)
    requires CursorOf(img, c) && !c.checked
    ensures EarnedOut(reqs, outs, n, uploads, PendingAt(Rest(stamp, Structure, 0, c), {}))
  {
  }

  /** The structure read to its end: its output refused, or its scripts next. */
  lemma StructureReadEarned(uploads: Uploads, reqs: seq<Request>, outs: seq<Outcome>, n: nat, stamp: Stamp,
                            img: Image, c: Cursor, out: Outcome)
    requires 1 <= n <= |reqs| == |outs| && reqs[n - 1].headers.Some? && reqs[n - 1].stamp == Some(stamp)
    requires img == uploads(stamp)
    requires CursorOf(img, c) && !c.checked && Run(img, reqs[n - 1].units, c).Whole?
    requires var end := Run(img, reqs[n - 1].units, c).cursor;
             match OutputWord(end.tip, reqs[n - 1].terms)
             case Unpaid(word) => out == DoneWith(word, {})
             case Pays(_, _) =>
               ScriptsTurn(img, stamp, reqs[n - 1], Start(true), Some(OutputWord(end.tip, reqs[n - 1].terms)), out)
    requires out == outs[n - 1]
    ensures EarnedOut(reqs, outs, n, uploads, out)
  {
    var req := reqs[n - 1];
    RunToTheEnd(img, req.units, c);
    var end := Run(img, req.units, c).cursor;
    match OutputWord(end.tip, req.terms)
    case Unpaid(word) => assert !word.Verified?;
    case Pays(_, _) => FreshScriptsEarned(uploads, reqs, outs, n, stamp, img, end, out);
  }

  lemma StructureTurnEarned(uploads: Uploads, reqs: seq<Request>, outs: seq<Outcome>, n: nat, stamp: Stamp,
                            img: Image, c: Cursor, out: Outcome)
    requires 1 <= n <= |reqs| == |outs| && reqs[n - 1].headers.Some? && reqs[n - 1].stamp == Some(stamp)
    requires img == uploads(stamp)
    requires CursorOf(img, c) && !c.checked
    requires StructureTurn(img, stamp, reqs[n - 1], c, out)
    requires out == outs[n - 1]
    ensures EarnedOut(reqs, outs, n, uploads, out)
  {
    var req := reqs[n - 1];
    if c' :| Later(img, req.units, c, c') && out == PendingAt(Rest(stamp, Structure, 0, c'), {}) {
      StructurePauseEarned(uploads, reqs, outs, n, stamp, img, c');
    } else if Run(img, req.units, c).Whole? {
      StructureReadEarned(uploads, reqs, outs, n, stamp, img, c, out);
    }
  }

  /** What is established stays established. */
  lemma EarnedStays(reqs: seq<Request>, outs: seq<Outcome>, m: nat, n: nat, img: Image, rest: Rest)
    requires m <= n <= |reqs| == |outs| && Earned(reqs, outs, m, img, rest)
    ensures Earned(reqs, outs, n, img, rest)
  {
    if !rest.phase.Structure? {
      forall e: nat, i: nat | e < |img.elements| && i < |Inputs(img.elements[e])| && Before(rest.cursor, e, i)
        ensures Allowed(reqs, n, rest.stamp, Inputs(img.elements[e])[i])
      {
        assert Allowed(reqs, m, rest.stamp, Inputs(img.elements[e])[i]);
      }
    }
    if rest.phase.Roots? {
      var roots := RootsOf(rest.cursor.roots);
      forall i | 0 <= i < rest.asked ensures Confirmed(reqs, outs, n, rest.stamp, roots[i]) {
        assert Confirmed(reqs, outs, m, rest.stamp, roots[i]);
      }
    }
  }

  lemma SavedStays(reqs: seq<Request>, outs: seq<Outcome>, m: nat, n: nat, uploads: Uploads, saved: Option<Rest>)
    requires m <= n <= |reqs| == |outs| && SavedEarned(reqs, outs, m, uploads, saved)
    ensures SavedEarned(reqs, outs, n, uploads, saved)
  {
    if saved.Some? { EarnedStays(reqs, outs, m, n, uploads(saved.value.stamp), saved.value); }
  }

  /** A request's own work earns what it leaves and answers, from a state the requests before it earned. */
  lemma TurnEarned(uploads: Uploads, reqs: seq<Request>, outs: seq<Outcome>, n: nat, loaded: Option<Rest>)
    requires 1 <= n <= |reqs| == |outs| && SavedEarned(reqs, outs, n - 1, uploads, loaded)
    requires reqs[n - 1].headers.Some? && reqs[n - 1].stamp.Some?
    requires TurnOf(uploads(reqs[n - 1].stamp.value), reqs[n - 1].stamp.value, reqs[n - 1], loaded, outs[n - 1])
    ensures EarnedOut(reqs, outs, n, uploads, outs[n - 1])
  {
    var stamp, out := reqs[n - 1].stamp.value, outs[n - 1];
    var img := uploads(stamp);
    if loaded.Some? && loaded.value.stamp == stamp {
      match loaded.value.phase
      case Structure => StructureTurnEarned(uploads, reqs, outs, n, stamp, img, loaded.value.cursor, out);
      case Scripts => ScriptsTurnEarned(uploads, reqs, outs, n, stamp, img, loaded.value.cursor, None, out);
      case Roots =>
        EarnedStays(reqs, outs, n - 1, n, img, loaded.value);
        RootsTurnEarned(uploads, reqs, outs, n, stamp, img, loaded.value.cursor, loaded.value.asked, None, out);
    } else {
      StructureTurnEarned(uploads, reqs, outs, n, stamp, img, Start(false), out);
    }
  }

  lemma ServeEarned(uploads: Uploads, reqs: seq<Request>, outs: seq<Outcome>, from: nat, n: nat)
    requires 1 <= n <= |reqs| == |outs| && from < n && ServedAt(uploads, reqs, outs, from, n - 1)
    requires SavedEarned(reqs, outs, n - 1, uploads, SavedBefore(outs, from))
    requires SavedEarned(reqs, outs, n - 1, uploads, SavedBefore(outs, n - 1))
    ensures EarnedOut(reqs, outs, n, uploads, outs[n - 1])
  {
    var req, out, current := reqs[n - 1], outs[n - 1], SavedBefore(outs, n - 1);
    if req.headers.None? || req.stamp.None? || Faulted(current, out) {
      SavedStays(reqs, outs, n - 1, n, uploads, current);
    } else {
      TurnEarned(uploads, reqs, outs, n, SavedBefore(outs, from));
    }
  }

  lemma {:induction false} SavedIsEarned(uploads: Uploads, reqs: seq<Request>, outs: seq<Outcome>, from: seq<nat>,
                                         i: nat, n: nat)
    requires OverlapOf(uploads, reqs, outs, from) && i <= n <= |reqs|
    ensures SavedEarned(reqs, outs, n, uploads, SavedBefore(outs, i))
    decreases i, 0
  {
    if i > 0 {
      VerifiedIsEarned(uploads, reqs, outs, from, i);
      SavedStays(reqs, outs, i, n, uploads, SavedBefore(outs, i));
    }
  }

  /**
   `Verified` is earned.  However the requests overlap, with a header service that may fail or change
   its answers and an object that may be replaced between any two requests, a `Verified` answer is
   about one upload whose structure and scripts were all read valid, whose output pays under the
   answering request's own terms, and whose every root some request on that upload asked for and saw
   carried.
   */
  lemma {:induction false} VerifiedIsEarned(uploads: Uploads, reqs: seq<Request>, outs: seq<Outcome>, from: seq<nat>,
                                            n: nat)
    requires OverlapOf(uploads, reqs, outs, from) && 1 <= n <= |reqs|
    ensures EarnedOut(reqs, outs, n, uploads, outs[n - 1])
    decreases n - 1, 1
  {
    SavedIsEarned(uploads, reqs, outs, from, from[n - 1], n - 1);
    SavedIsEarned(uploads, reqs, outs, from, n - 1, n - 1);
    assert ServedAt(uploads, reqs, outs, from[n - 1], n - 1);
    ServeEarned(uploads, reqs, outs, from[n - 1], n);
  }

  // -------------------------------------------------------------------------
  // Progress
  // -------------------------------------------------------------------------

  /** The work ahead of a state: the phases still to come, the steps left in this one, the roots
      still to ask. */
  function Ahead(img: Image, rest: Rest): (r: nat)
    requires Trusted(img, rest)
  {
    var roots := |RootsOf(RootsIn(img.elements))|;
    match rest.phase
    case Structure => Left(img, rest.cursor) + 1 + TotalSteps(img.elements) + 1 + roots
    case Scripts => Left(img, rest.cursor) + 1 + roots
    case Roots =>
      assert img.elements[..|img.elements|] == img.elements;
      roots - rest.asked
  }

  function AheadOf(img: Image, stamp: Stamp, saved: Option<Rest>): (r: nat)
    requires saved.Some? && saved.value.stamp == stamp ==> Trusted(img, saved.value)
  {
    if saved.Some? && saved.value.stamp == stamp then Ahead(img, saved.value)
    else Ahead(img, Rest(stamp, Structure, 0, Start(false)))
  }

  /** The work ahead went down: `rest` is a state of the same upload with less than `before` ahead. */
  ghost predicate Moved(img: Image, stamp: Stamp, before: nat, out: Outcome) {
    && out.saved.Some? && out.saved.value.stamp == stamp && Trusted(img, out.saved.value)
    && Ahead(img, out.saved.value) < before
  }

  /** A pause at the roots is at the place the request began from, or beyond it. */
  lemma RootsTurnPauses(img: Image, stamp: Stamp, req: Request, c: Cursor, asked: nat, known: Option<Paid>,
                        out: Outcome)
    returns (place: nat)
    requires req.headers.Some? && (known.Some? ==> known.value.Pays?)
    requires Trusted(img, Rest(stamp, Roots, asked, c))
    requires RootsTurn(stamp, req, c, asked, known, out) && out.answer.Pending?
    ensures asked <= place < |RootsOf(c.roots)| && out.saved == Some(Rest(stamp, Roots, place, c))
    ensures place == asked <==> req.lookups == 0 || FailedAt(RootsOf(c.roots), req.headers.value, asked)
  {
    var paid := if known.Some? then known.value else OutputWord(c.tip, req.terms);
    var roots := RootsOf(c.roots);
    var r :| RootsSay(roots, asked, Some(req.lookups), req.headers.value, r)
              && AskedOf(roots, asked, Some(req.lookups), req.headers.value, r, out.heights)
              && RootsLeave(stamp, c, r, paid, out);
    StuckExactly(roots, asked, req.lookups, req.headers.value, r.place);
    place := r.place;
  }

  /** The work ahead at the roots is the roots not asked yet. */
  lemma RootsAhead(img: Image, stamp: Stamp, c: Cursor, place: nat)
    requires Trusted(img, Rest(stamp, Roots, place, c))
    ensures Ahead(img, Rest(stamp, Roots, place, c)) == |RootsOf(c.roots)| - place
    ensures c.roots == RootsIn(img.elements)
  {
    assert img.elements[..|img.elements|] == img.elements;
  }

  lemma ScriptsTurnMoves(img: Image, stamp: Stamp, req: Request, c: Cursor, known: Option<Paid>, out: Outcome)
    requires req.headers.Some? && (known.Some? ==> known.value.Pays?)
    requires CursorOf(img, c) && c.checked
    requires ScriptsTurn(img, stamp, req, c, known, out) && out.answer.Pending?
    ensures Moved(img, stamp, Ahead(img, Rest(stamp, Scripts, 0, c)), out)
  {
    if c' :| Later(img, req.units, c, c') && out == PendingAt(Rest(stamp, Scripts, 0, c'), {}) {
    } else {
      RunToTheEnd(img, req.units, c);
      var end := Run(img, req.units, c).cursor;
      var place := RootsTurnPauses(img, stamp, req, end, 0, known, out);
      RootsAhead(img, stamp, end, place);
    }
  }

  lemma StructureTurnMoves(img: Image, stamp: Stamp, req: Request, c: Cursor, out: Outcome)
    requires req.headers.Some?
    requires CursorOf(img, c) && !c.checked
    requires StructureTurn(img, stamp, req, c, out) && out.answer.Pending?
    ensures Moved(img, stamp, Ahead(img, Rest(stamp, Structure, 0, c)), out)
  {
    if c' :| Later(img, req.units, c, c') && out == PendingAt(Rest(stamp, Structure, 0, c'), {}) {
    } else {
      var paid := OutputWord(Run(img, req.units, c).cursor.tip, req.terms);
      ScriptsTurnMoves(img, stamp, req, Start(true), Some(paid), out);
      assert img.elements[0..] == img.elements;
    }
  }

  /** The request begins at a root it cannot get past: it has no lookup, or the header service cannot answer
      for that root. */
  predicate Stuck(stamp: Stamp, req: Request, saved: Option<Rest>)
    requires req.headers.Some?
  {
    && saved.Some? && saved.value.stamp == stamp && saved.value.phase.Roots?
    && (var roots := RootsOf(saved.value.cursor.roots);
        req.lookups == 0 || (saved.value.asked < |roots| && Asked(roots[saved.value.asked]) !in req.headers.value))
  }

  /** A pending answer from the roots: past them by what it asked, or just where it was. */
  lemma RootsMoves(img: Image, req: Request, rest: Rest, out: Outcome)
    requires req.headers.Some? && rest.phase.Roots? && Trusted(img, rest)
    requires RootsTurn(rest.stamp, req, rest.cursor, rest.asked, None, out) && out.answer.Pending?
    ensures Moved(img, rest.stamp, Ahead(img, rest), out) <==> !Stuck(rest.stamp, req, Some(rest))
    ensures Stuck(rest.stamp, req, Some(rest)) ==> out.saved == Some(rest)
  {
    var place := RootsTurnPauses(img, rest.stamp, req, rest.cursor, rest.asked, None, out);
    RootsAhead(img, rest.stamp, rest.cursor, place);
    RootsAhead(img, rest.stamp, rest.cursor, rest.asked);
  }

  /** Exactly when a pending answer moves, whatever the lookups and the header service: always but from a root
      the request cannot get past.  There it comes back to the state it began from. */
  lemma PendingMoves(img: Image, stamp: Stamp, req: Request, saved: Option<Rest>, out: Outcome)
    requires req.headers.Some?
    requires saved.Some? && saved.value.stamp == stamp ==> Trusted(img, saved.value)
    requires DoorTurn(img, stamp, req, saved, out) && out.answer.Pending?
    ensures Moved(img, stamp, AheadOf(img, stamp, saved), out) <==> !Stuck(stamp, req, saved)
    ensures Stuck(stamp, req, saved) ==> out.saved == saved
  {
    if saved.Some? && saved.value.stamp == stamp {
      match saved.value.phase
      case Structure => StructureTurnMoves(img, stamp, req, saved.value.cursor, out);
      case Scripts => ScriptsTurnMoves(img, stamp, req, saved.value.cursor, None, out);
      case Roots => RootsMoves(img, req, saved.value, out);
    } else {
      StructureTurnMoves(img, stamp, req, Start(false), out);
    }
  }

  /** Every request is on the upload, and there is a header service. */
  predicate OnUpload(reqs: seq<Request>, stamp: Stamp) {
    forall i :: 0 <= i < |reqs| ==> reqs[i].stamp == Some(stamp) && reqs[i].headers.Some?
  }

  /** How many of the first `n` requests began at a root they could not get past. */
  function Stalls(reqs: seq<Request>, outs: seq<Outcome>, stamp: Stamp, n: nat): (s: nat)
    requires n <= |reqs| == |outs| && OnUpload(reqs, stamp)
  {
    if n == 0 then 0
    else Stalls(reqs, outs, stamp, n - 1) + if Stuck(stamp, reqs[n - 1], SavedBefore(outs, n - 1)) then 1 else 0
  }

  /** Over a run of pending answers, every request but the stalled ones leaves less ahead than the one before. */
  lemma {:induction false} PendingRunShrinks(uploads: Uploads, reqs: seq<Request>, outs: seq<Outcome>, stamp: Stamp,
                                             k: nat)
    requires RunOf(uploads, reqs, outs) && k < |reqs| && OnUpload(reqs, stamp)
    requires forall i :: 0 <= i <= k ==> outs[i].answer.Pending?
    ensures outs[k].saved.Some? && outs[k].saved.value.stamp == stamp && Trusted(uploads(stamp), outs[k].saved.value)
    ensures k + 1 + Ahead(uploads(stamp), outs[k].saved.value)
            <= AheadOf(uploads(stamp), stamp, None) + Stalls(reqs, outs, stamp, k + 1)
  {
    if k > 0 {
      PendingRunShrinks(uploads, reqs, outs, stamp, k - 1);
    }
    ServedMoves(uploads, reqs, outs, stamp, k);
  }

  /** One pending answer of the run, from the state the one before it left. */
  lemma ServedMoves(uploads: Uploads, reqs: seq<Request>, outs: seq<Outcome>, stamp: Stamp, k: nat)
    requires RunOf(uploads, reqs, outs) && k < |reqs| && outs[k].answer.Pending?
    requires SavedBefore(outs, k).Some? ==>
      SavedBefore(outs, k).value.stamp == stamp && Trusted(uploads(stamp), SavedBefore(outs, k).value)
    requires reqs[k].stamp == Some(stamp) && reqs[k].headers.Some?
    ensures if Stuck(stamp, reqs[k], SavedBefore(outs, k)) then outs[k].saved == SavedBefore(outs, k)
            else Moved(uploads(stamp), stamp, AheadOf(uploads(stamp), stamp, SavedBefore(outs, k)), outs[k])
  {
    assert ServedAt(uploads, reqs, outs, k, k);
    PendingMoves(uploads(stamp), stamp, reqs[k], SavedBefore(outs, k), outs[k]);
  }

  /** The request has a lookup, and the header service answers at the heights of the upload's own roots. */
  predicate Answered(img: Image, req: Request) {
    && req.headers.Some? && req.lookups >= 1
    && forall root :: root in RootsIn(img.elements) ==> Asked(root) in req.headers.value
  }

  /** Such a request is never stuck. */
  lemma AnsweredMoves(img: Image, stamp: Stamp, req: Request, saved: Option<Rest>)
    requires Answered(img, req) && (saved.Some? && saved.value.stamp == stamp ==> Trusted(img, saved.value))
    ensures !Stuck(stamp, req, saved)
  {
    if saved.Some? && saved.value.stamp == stamp && saved.value.phase.Roots? {
      var rest := saved.value;
      RootsAhead(img, stamp, rest.cursor, rest.asked);
      RootsSorted(rest.cursor.roots);
      var roots := RootsOf(rest.cursor.roots);
      if rest.asked < |roots| { assert roots[rest.asked] in roots; }
    }
  }

  lemma {:induction false} NoStalls(uploads: Uploads, reqs: seq<Request>, outs: seq<Outcome>, stamp: Stamp, n: nat)
    requires RunOf(uploads, reqs, outs) && n <= |reqs| && OnUpload(reqs, stamp)
    requires forall i :: 0 <= i < n ==> outs[i].answer.Pending? && Answered(uploads(stamp), reqs[i])
    ensures Stalls(reqs, outs, stamp, n) == 0
  {
    if n > 0 {
      NoStalls(uploads, reqs, outs, stamp, n - 1);
      if n > 1 { PendingRunShrinks(uploads, reqs, outs, stamp, n - 2); }
      AnsweredMoves(uploads(stamp), stamp, reqs[n - 1], SavedBefore(outs, n - 1));
    }
  }

  /** So a run of pending answers, each with a lookup and a header service that answers for the upload's own
      roots, is no longer than the work the object holds. */
  lemma PendingRunEnds(uploads: Uploads, reqs: seq<Request>, outs: seq<Outcome>, stamp: Stamp, k: nat)
    requires RunOf(uploads, reqs, outs) && k < |reqs| && OnUpload(reqs, stamp)
    requires forall i :: 0 <= i <= k ==> outs[i].answer.Pending? && Answered(uploads(stamp), reqs[i])
    ensures k < 2 * TotalSteps(uploads(stamp).elements) + 2 + |RootsOf(RootsIn(uploads(stamp).elements))|
  {
    PendingRunShrinks(uploads, reqs, outs, stamp, k);
    NoStalls(uploads, reqs, outs, stamp, k + 1);
    assert uploads(stamp).elements[0..] == uploads(stamp).elements;
  }

  /** Two roots, one lookup, and a header service that does not answer at the first: the object, the request and
      the state it comes back to. */
  lemma PendingStuck() returns (img: Image, req: Request, rest: Rest)
    ensures req.headers.Some? && req.lookups == 1 && rest.phase.Roots? && rest.asked == 0 && Trusted(img, rest)
    ensures |RootsOf(rest.cursor.roots)| == 2
    ensures exists out ::
              DoorTurn(img, rest.stamp, req, Some(rest), out) && out.answer.Pending? && out.saved == Some(rest)
  {
    var one, two := Root(1, 7), Root(2, 8);
    var tip := Tip(5, [TxOutput([], 100)]);
    var first, second, subject := Bump(one), Bump(two), Raw(tip, [], None);
    img := Image([first, second, subject], None);
    var c := Cursor(true, 3, 0, [one, two], Some(tip));
    var stamp := Stamp(1, "e");
    rest := Rest(stamp, Roots, 0, c);
    req := Request(Some(stamp), Terms(0, [], 100), Some(map[2 := 8]), 1, 0);
    ThreeRead(img, first, second, subject);
    TwoRoots(one, two);
    var roots := RootsOf(c.roots);
    assert roots == [one, two];
    assert HeightsAsked(roots, 0, 0) == {} && HeightsAsked(roots, 0, 1) == {1};
    assert FailedAt(roots, map[2 := 8], 0) && SpentAt(roots, 0, Some(1), 1);
    assert EndedAt(roots, 0, Some(1), map[2 := 8], 1, LookupsSpent(0));
    assert AskedOf(roots, 0, Some(1), map[2 := 8], LookupsSpent(0), {1});
    var out := PendingAt(rest, {1});
    assert RootsLeave(stamp, c, LookupsSpent(0), Pays(5, 100), out);
    assert RootsTurn(stamp, req, c, 0, None, out);
  }

  lemma ThreeRead(img: Image, a: Element, b: Element, c: Element)
    requires img.elements == [a, b, c] && a.Bump? && b.Bump? && c.Raw?
    ensures RootsIn(img.elements[..3]) == [a.root, b.root] && TipIn(img.elements[..3]) == Some(c.tip)
  {
    var all := img.elements[..3];
    assert all == [a, b, c] && all[..2] == [a, b] && [a, b][..1] == [a] && [a][..0] == [];
    assert RootsIn([a]) == [a.root] && RootsIn([a, b]) == [a.root, b.root];
  }

  lemma TwoRoots(a: Root, b: Root)
    requires Below(a, b)
    ensures RootsOf([a, b]) == [a, b]
  {
    RootsSorted([a, b]);
    AscendingUnique(RootsOf([a, b]), [a, b]);
  }

  // -------------------------------------------------------------------------
  // The door itself makes such runs
  // -------------------------------------------------------------------------

  /** A slice of a request: its time, its inputs and their weight. */
  datatype Slice = Slice(millis: nat, inputs: nat, weight: nat, started: nat)

  /** The requests of one key served one after the other by the door, each in its own slice: a run. */
  method ServeAll(uploads: Uploads, reqs: seq<Request>, slices: seq<Slice>, steady: bool) returns (outs: seq<Outcome>)
    requires |slices| == |reqs|
    ensures RunOf(uploads, reqs, outs)
    ensures steady ==> forall i :: 0 <= i < |outs| ==> !outs[i].answer.Fault?
  {
    var door := new Door(steady);
    outs := [];
    for n := 0 to |reqs|
      invariant |outs| == n && door.saved == SavedBefore(outs, n) && door.steady == steady && fresh(door)
      invariant RunOf(uploads, reqs[..n], outs)
      invariant steady ==> forall i :: 0 <= i < n ==> !outs[i].answer.Fault?
    {
      var out := ServeNext(uploads, door, reqs, outs, n, slices[n]);
      outs := outs + [out];
    }
    assert reqs[..|reqs|] == reqs;
  }

  /** The next request of a run, in its slice. */
  method ServeNext(uploads: Uploads, door: Door, reqs: seq<Request>, ghost outs: seq<Outcome>, n: nat, slice: Slice)
    returns (out: Outcome)
    requires n < |reqs| && |outs| == n && RunOf(uploads, reqs[..n], outs) && door.saved == SavedBefore(outs, n)
    modifies door`saved
    ensures RunOf(uploads, reqs[..n + 1], outs + [out]) && door.saved == out.saved
    ensures door.steady ==> !out.answer.Fault?
  {
    RunTrusted(uploads, reqs[..n], outs);
    var since := new Since(slice.millis, slice.inputs, slice.weight, slice.started);
    var answer, heights := ServeOne(uploads, door, reqs[n], since);
    out := Outcome(door.saved, answer, heights);
    RunThen(uploads, reqs, outs, n, out);
  }

  /** One request: the header service, the object, the door. */
  method ServeOne(uploads: Uploads, door: Door, req: Request, since: Since) returns (answer: Answer, heights: set<nat>)
    requires SavedTrusted(uploads, door.saved)
    modifies door`saved, since
    ensures Serve(uploads, old(door.saved), old(door.saved), req, Outcome(door.saved, answer, heights))
    ensures door.steady ==> !answer.Fault?
  {
    if req.headers.None? { return Done(NoHeaderService), {}; }
    if req.stamp.None? { return NotFound, {}; }
    answer, heights := door.DoorAtRest(uploads(req.stamp.value), req.stamp.value, req, since);
  }

  /** What a run has saved is of the upload it is stamped with. */
  lemma RunTrusted(uploads: Uploads, reqs: seq<Request>, outs: seq<Outcome>)
    requires RunOf(uploads, reqs, outs)
    ensures SavedTrusted(uploads, SavedBefore(outs, |outs|))
  {
    RunIsOverlap(uploads, reqs, outs);
    SavedIsEarned(uploads, reqs, outs, OneByOne(|reqs|), |outs|, |outs|);
  }

  /** A run and one request more. */
  lemma RunThen(uploads: Uploads, reqs: seq<Request>, outs: seq<Outcome>, n: nat, out: Outcome)
    requires n < |reqs| && |outs| == n && RunOf(uploads, reqs[..n], outs)
    requires Serve(uploads, SavedBefore(outs, n), SavedBefore(outs, n), reqs[n], out)
    ensures RunOf(uploads, reqs[..n + 1], outs + [out])
  {
    var asked, all := reqs[..n + 1], outs + [out];
    forall i: nat | i < |asked| ensures ServedAt(uploads, asked, all, i, i) {
      if i < n { assert ServedAt(uploads, reqs[..n], outs, i, i); }
      assert SavedBefore(all, i) == SavedBefore(outs, i);
    }
  }
}
