/**
 The word of one unsliced pass over an object, the pass of a payment the request itself carries, and
 what each of its words says of the bytes, the terms and the header service.
 */
module DoorWords {
  import opened Prelude
  import opened Verifier
  import opened HeaderRoots
  import opened PaymentDoor

  /** The word of one unsliced pass over the object: the inline door's order, no cursor, no slice. */
  ghost predicate WholeSays(img: Image, terms: Terms, units: nat, headers: Headers, w: Word) {
    match Run(img, units, Start(false))
    case Stopped(refusal) => w == BytesRefused(refusal)
    case Whole(structure) =>
      var paid := OutputWord(structure.tip, terms);
      if paid.Unpaid? then w == paid.word
      else match Run(img, units, Start(true))
        case Stopped(refusal) => w == BytesRefused(refusal)
        case Whole(end) => RootsWhole(RootsOf(end.roots), headers, paid, w)
  }

  ghost predicate RootsMean(roots: seq<Root>, r: Rooted, paid: Paid, w: Word)
    requires paid.Pays?
  {
    && !r.LookupsSpent?
    && (r.Mismatch? || r.LookupFailed? ==> r.place < |roots|)
    && w == RootWord(roots, r, paid)
  }

  /** The word of asking all the roots at once. */
  ghost predicate RootsWhole(roots: seq<Root>, headers: Headers, paid: Paid, w: Word)
    requires paid.Pays?
  {
    exists r :: RootsSay(roots, 0, None, headers, r) && RootsMean(roots, r, paid, w)
  }

  lemma RootsWholeOne(roots: seq<Root>, headers: Headers, paid: Paid, w: Word, w': Word)
    requires paid.Pays? && RootsWhole(roots, headers, paid, w) && RootsWhole(roots, headers, paid, w')
    ensures w == w'
  {
    var r :| RootsSay(roots, 0, None, headers, r) && RootsMean(roots, r, paid, w);
    var r' :| RootsSay(roots, 0, None, headers, r') && RootsMean(roots, r', paid, w');
    RootsSayOne(roots, 0, None, headers, r, r');
  }

  /** The unsliced pass has one word. */
  lemma WholeSaysOne(img: Image, terms: Terms, units: nat, headers: Headers, w: Word, w': Word)
    requires WholeSays(img, terms, units, headers, w) && WholeSays(img, terms, units, headers, w')
    ensures w == w'
  {
    var structure, scripts := Run(img, units, Start(false)), Run(img, units, Start(true));
    if structure.Whole? && scripts.Whole? {
      var paid := OutputWord(structure.cursor.tip, terms);
      if paid.Pays? {
        RootsWholeOne(RootsOf(scripts.cursor.roots), headers, paid, w, w');
      }
    }
  }

  /** The door on a payment carried by the request itself: its source cannot fail, so it always has a word. */
  method VerifyInline(img: Image, terms: Terms, units: nat, headers: Option<Headers>) returns (answer: Answer)
    ensures headers.None? ==> answer == Done(NoHeaderService)
    ensures answer.Done? && (headers.Some? ==> WholeSays(img, terms, units, headers.value, answer.word))
    ensures headers.Some? ==> WordMeans(img, terms, units, headers.value, answer.word)
  {
    if headers.None? {
      return Done(NoHeaderService);
    }
    var word := OnePass(img, terms, units, headers.value);
    WholeMeans(img, terms, units, headers.value, word);
    answer := Done(word);
  }

  /** All four parts of the pass, each in one go. */
  method OnePass(img: Image, terms: Terms, units: nat, headers: Headers) returns (word: Word)
    ensures WholeSays(img, terms, units, headers, word)
  {
    var chunks: nat := *;
    var structure := Read(img, units, None, false, chunks, true, null);
    if structure.Refused? {
      return BytesRefused(structure.refusal);
    }
    var paid := OutputWord(structure.cursor.tip, terms);
    if paid.Unpaid? {
      return paid.word;
    }
    var chunks': nat := *;
    var scripts := Read(img, units, None, true, chunks', true, null);
    if scripts.Refused? {
      return BytesRefused(scripts.refusal);
    }
    var roots := RootsOf(scripts.cursor.roots);
    var r, _ := RootsWord(roots, 0, None, headers);
    assert !r.LookupsSpent?;
    assert RootsMean(roots, r, paid, RootWord(roots, r, paid));
    word := RootWord(roots, r, paid);
  }

  /** Both passes of an object come to the same subject and the same roots. */
  lemma PassesAgree(img: Image, units: nat, units': nat)
    requires Run(img, units, Start(false)).Whole? && Run(img, units', Start(true)).Whole?
    ensures var a, b := Run(img, units, Start(false)).cursor, Run(img, units', Start(true)).cursor;
            a.tip == b.tip == TipIn(img.elements) && a.roots == b.roots == RootsIn(img.elements)
  {
    RunToTheEnd(img, units, Start(false));
    RunToTheEnd(img, units', Start(true));
    assert img.elements[..|img.elements|] == img.elements;
  }

  // -------------------------------------------------------------------------
  // What the words of the one pass mean
  // -------------------------------------------------------------------------

  /** The subject is the object's last raw transaction. */
  ghost predicate Subject(img: Image, tip: Tip) {
    exists s: nat :: SubjectAt(img, s) && img.elements[s].tip == tip
  }

  predicate SubjectAt(img: Image, s: nat) {
    s < |img.elements| && img.elements[s].Raw? && forall e :: s < e < |img.elements| ==> !img.elements[e].Raw?
  }

  /** The subject's output at the index of the terms pays this much to this script. */
  ghost predicate OutputAt(img: Image, index: nat, script: seq<Byte>, satoshis: nat) {
    exists tip ::
      Subject(img, tip) && index < |tip.outputs| && tip.outputs[index] == TxOutput(script, satoshis)
  }

  /** The subject pays these satoshis to the script of the terms, at their index, and enough. */
  ghost predicate PaysUnder(img: Image, terms: Terms, satoshis: nat, subject: Hash) {
    && satoshis >= terms.required
    && exists tip :: Subject(img, tip) && tip.txid == subject && terms.outputIndex < |tip.outputs|
         && tip.outputs[terms.outputIndex].script == terms.script
         && tip.outputs[terms.outputIndex].satoshis == satoshis
  }

  ghost predicate PaysSome(img: Image, terms: Terms) {
    exists satoshis, subject :: PaysUnder(img, terms, satoshis, subject)
  }

  /** The object is read to its end, its subject pays under the terms, and every script of it passes. */
  ghost predicate Spendable(img: Image, terms: Terms, units: nat) {
    && img.flaw.None? && PaysSome(img, terms)
    && (forall e: nat, i: nat :: e < |img.elements| && img.elements[e].Raw? && i < |img.elements[e].spends| ==>
          img.elements[e].spends[i].work <= units && img.elements[e].spends[i].refused.None?)
    && (forall e: nat :: e < |img.elements| && img.elements[e].Raw? ==> img.elements[e].overpays.None?)
  }

  /** The header service answers another root at the height the root claims. */
  predicate Contradicted(headers: Headers, root: Root) {
    root.height in headers && headers[root.height] != root.hash
  }

  /** The root is one the object's proofs come to. */
  ghost predicate HasRoot(img: Image, root: Root) {
    exists e :: BumpAt(img.elements, e, root)
  }

  ghost predicate HeightsFit(img: Image) {
    forall root :: HasRoot(img, root) ==> root.height < 0x1_0000_0000
  }

  /** Some script or overpaying transaction of the object is what refuses it, and every script before it passes. */
  ghost predicate RefusedInScripts(img: Image, units: nat, refusal: Refusal) {
    exists at: Cursor ::
      && CursorOf(img, at) && at.checked && at.elements < |img.elements| && RefusedAt(img, units, at, refusal)
      && (at == Start(true) || Later(img, units, Start(true), at))
  }

  /** What the output check's refusals say. */
  ghost predicate UnpaidMeans(img: Image, terms: Terms, w: Word) {
    match w
    case NoTransaction => forall e :: 0 <= e < |img.elements| ==> !img.elements[e].Raw?
    case NoSuchOutput => exists tip :: Subject(img, tip) && terms.outputIndex >= |tip.outputs|
    case WrongScript =>
      exists script, satoshis :: OutputAt(img, terms.outputIndex, script, satoshis) && script != terms.script
    case Underpaid(satoshis) =>
      satoshis < terms.required && OutputAt(img, terms.outputIndex, terms.script, satoshis)
    case _ => false
  }

  /** What the words of the roots say. */
  ghost predicate RootedMeans(img: Image, headers: Headers, w: Word) {
    match w
    case Verified(_, _) =>
      && (exists root :: HasRoot(img, root))
      && HeightsFit(img)
      && forall root :: HasRoot(img, root) ==> root.height in headers && headers[root.height] == root.hash
    case NoMerkleProof => forall root :: !HasRoot(img, root)
    case HeightTooHigh(height) =>
      && (exists root :: HasRoot(img, root) && root.height == height)
      && 0x1_0000_0000 <= height && forall root :: HasRoot(img, root) ==> root.height <= height
    case RootMismatch(height, hash) =>
      && HeightsFit(img)
      && HasRoot(img, Root(height, hash)) && Contradicted(headers, Root(height, hash))
      && forall root :: HasRoot(img, root) && Below(root, Root(height, hash)) ==> !Contradicted(headers, root)
    case HeaderLookupFailed(height) =>
      && HeightsFit(img)
      && height !in headers && (exists root :: HasRoot(img, root) && root.height == height)
      && forall root :: HasRoot(img, root) ==>
           !Contradicted(headers, root) && (root.height < height ==> root.height in headers)
    case _ => false
  }

  /** What a word says, without the machine that came to it. */
  ghost predicate WordMeans(img: Image, terms: Terms, units: nat, headers: Headers, w: Word) {
    if w.BytesRefused? then
      || img.flaw == Some(w.refusal)
      || (img.flaw.None? && PaysSome(img, terms) && RefusedInScripts(img, units, w.refusal))
    else if w.NoTransaction? || w.NoSuchOutput? || w.WrongScript? || w.Underpaid? then
      img.flaw.None? && UnpaidMeans(img, terms, w)
    else
      && Spendable(img, terms, units) && RootedMeans(img, headers, w)
      && (w.Verified? ==> PaysUnder(img, terms, w.satoshis, w.subject))
  }

  lemma {:induction false} TipIs(es: seq<Element>) returns (s: nat)
    ensures TipIn(es).None? ==> forall e :: 0 <= e < |es| ==> !es[e].Raw?
    ensures TipIn(es).Some? ==>
      s < |es| && es[s].Raw? && TipIn(es) == Some(es[s].tip) && forall e :: s < e < |es| ==> !es[e].Raw?
  {
    if es == [] || es[|es| - 1].Raw? { return SaturatingSub(|es|, 1); }
    s := TipIs(es[..|es| - 1]);
  }

  predicate BumpAt(es: seq<Element>, e: int, root: Root) {
    0 <= e < |es| && es[e] == Bump(root)
  }

  lemma {:induction false} RootsAre(es: seq<Element>, root: Root)
    ensures root in RootsIn(es) <==> exists e :: BumpAt(es, e, root)
  {
    if es != [] {
      var n := |es| - 1;
      RootsAre(es[..n], root);
      if e :| BumpAt(es[..n], e, root) { assert BumpAt(es, e, root); }
      assert es[n] == Bump(root) ==> BumpAt(es, n, root);
      if e :| BumpAt(es, e, root) {
        if e < n { assert BumpAt(es[..n], e, root); }
      }
    }
  }

  /** The output check on an object's subject, said of its elements. */
  lemma PaidIs(img: Image, terms: Terms, paid: Paid)
    requires paid == OutputWord(TipIn(img.elements), terms) && img.flaw.None?
    ensures if paid.Pays? then PaysUnder(img, terms, paid.satoshis, paid.txid)
            else UnpaidMeans(img, terms, paid.word)
  {
    var s := TipIs(img.elements);
    if TipIn(img.elements).Some? {
      var tip := img.elements[s].tip;
      assert SubjectAt(img, s);
      assert Subject(img, tip);
      if terms.outputIndex < |tip.outputs| {
        var out := tip.outputs[terms.outputIndex];
        assert OutputAt(img, terms.outputIndex, out.script, out.satoshis);
      }
    }
  }

  lemma RootsOfAre(img: Image)
    ensures var roots := RootsOf(RootsIn(img.elements));
      Ascending(roots) && forall root :: root in roots <==> HasRoot(img, root)
  {
    RootsSorted(RootsIn(img.elements));
    forall root ensures root in RootsIn(img.elements) <==> HasRoot(img, root) { RootsAre(img.elements, root); }
  }

  /** The last of the object's roots in order has the highest height. */
  lemma LastIsHighest(img: Image, roots: seq<Root>)
    requires roots != [] && Ascending(roots) && forall root :: root in roots <==> HasRoot(img, root)
    ensures var last := roots[|roots| - 1];
      HasRoot(img, last) && forall root :: HasRoot(img, root) ==> root.height <= last.height
  {
    var last := roots[|roots| - 1];
    assert last in roots;
    forall root | HasRoot(img, root) ensures root.height <= last.height {
      var i :| 0 <= i < |roots| && roots[i] == root;
      assert i == |roots| - 1 || Below(roots[i], last);
    }
  }

  /** The word of the roots, said of the object's own. */
  lemma RootsMeanWord(img: Image, headers: Headers, paid: Paid, w: Word)
    requires paid.Pays? && RootsWhole(RootsOf(RootsIn(img.elements)), headers, paid, w)
    ensures RootedMeans(img, headers, w) && (w.Verified? ==> w == Verified(paid.satoshis, paid.txid))
  {
    RootsOfAre(img);
    var roots := RootsOf(RootsIn(img.elements));
    var r :| RootsSay(roots, 0, None, headers, r) && RootsMean(roots, r, paid, w);
    if roots != [] && roots[|roots| - 1].height < U32_SPAN {
      RootsEndWord(img, headers, paid, w, roots, r);
    } else {
      RootsUnasked(img, headers, paid, w, roots, r);
    }
  }

  lemma RootsUnasked(img: Image, headers: Headers, paid: Paid, w: Word, roots: seq<Root>, r: Rooted)
    requires paid.Pays? && RootsSay(roots, 0, None, headers, r) && RootsMean(roots, r, paid, w)
    requires Ascending(roots) && forall root :: root in roots <==> HasRoot(img, root)
    requires roots != [] ==> roots[|roots| - 1].height >= U32_SPAN
    ensures RootedMeans(img, headers, w) && !w.Verified?
  {
    if roots == [] {
      assert forall root :: HasRoot(img, root) ==> root in roots;
    } else {
      LastIsHighest(img, roots);
    }
  }

  lemma RootsEndWord(img: Image, headers: Headers, paid: Paid, w: Word, roots: seq<Root>, r: Rooted)
    requires paid.Pays?
    requires roots != [] && Ascending(roots) && forall root :: root in roots <==> HasRoot(img, root)
    requires roots[|roots| - 1].height < U32_SPAN
    requires RootsSay(roots, 0, None, headers, r) && RootsMean(roots, r, paid, w)
    ensures RootedMeans(img, headers, w) && (w.Verified? ==> w == Verified(paid.satoshis, paid.txid))
  {
    var t: nat :| EndedAt(roots, 0, None, headers, t, r);
    forall i: nat | i < |roots|
      ensures HasRoot(img, roots[i]) && roots[i].height < U32_SPAN && Asked(roots[i]) == roots[i].height
    {
      assert roots[i] in roots;
      NoHeightTruncated(roots, i);
    }
    forall root | HasRoot(img, root)
      ensures root.height < U32_SPAN
      ensures !r.Mismatch? ==> !Contradicted(headers, root)
      ensures r.AllCarried? ==> root.height in headers
      ensures r.Mismatch? && Below(root, roots[r.place]) ==> !Contradicted(headers, root)
      ensures r.LookupFailed? && root.height < roots[r.place].height ==> root.height in headers
    {
      var i :| 0 <= i < |roots| && roots[i] == root;
      if r.Mismatch? || r.LookupFailed? {
        if r.place < i { assert Below(roots[r.place], roots[i]); }
      }
      assert i < t ==> !MismatchAt(roots, headers, i);
      assert r.AllCarried? || (r.LookupFailed? && i < r.place) ==> !FailedAt(roots, headers, i);
    }
  }

  /** Every word of the one pass says what it means. */
  lemma WholeMeans(img: Image, terms: Terms, units: nat, headers: Headers, w: Word)
    requires WholeSays(img, terms, units, headers, w)
    ensures WordMeans(img, terms, units, headers, w)
  {
    var first := Run(img, units, Start(false));
    if first.Stopped? {
      var at := StoppedAt(img, units, Start(false));
    } else {
      ReadWhole(img, units, false);
      PaidIs(img, terms, OutputWord(first.cursor.tip, terms));
      if OutputWord(first.cursor.tip, terms).Pays? { PaidMeans(img, terms, units, headers, w); }
    }
  }

  /** A pass at its end has folded all of the object. */
  lemma ReadWhole(img: Image, units: nat, checked: bool)
    requires Run(img, units, Start(checked)).Whole?
    ensures img.flaw.None?
    ensures var end := Run(img, units, Start(checked)).cursor;
      end.tip == TipIn(img.elements) && end.roots == RootsIn(img.elements)
  {
    RunToTheEnd(img, units, Start(checked));
    assert img.elements[..|img.elements|] == img.elements;
  }

  /** The same once the output pays. */
  lemma PaidMeans(img: Image, terms: Terms, units: nat, headers: Headers, w: Word)
    requires WholeSays(img, terms, units, headers, w)
    requires Run(img, units, Start(false)).Whole? && OutputWord(TipIn(img.elements), terms).Pays?
    ensures WordMeans(img, terms, units, headers, w)
  {
    ReadWhole(img, units, false);
    var paid := OutputWord(TipIn(img.elements), terms);
    PaidIs(img, terms, paid);
    if Run(img, units, Start(true)).Stopped? {
      var at := StoppedAt(img, units, Start(true));
    } else {
      ReadWhole(img, units, true);
      WholeSpendable(img, terms, units);
      RootsMeanWord(img, headers, paid, w);
    }
  }

  lemma WholeSpendable(img: Image, terms: Terms, units: nat)
    requires PaysSome(img, terms)
    ensures Run(img, units, Start(true)).Whole? <==> Spendable(img, terms, units)
  {
    WholeExactly(img, units, Start(true));
  }

  lemma SubjectIsTip(img: Image, tip: Tip)
    requires Subject(img, tip)
    ensures TipIn(img.elements) == Some(tip)
  {
    var s := TipIs(img.elements);
    var s': nat :| SubjectAt(img, s') && img.elements[s'].tip == tip;
    assert s == s';
  }

  /** The output check says only what is so of the subject. */
  lemma UnpaidIs(img: Image, terms: Terms, w: Word)
    requires UnpaidMeans(img, terms, w)
    ensures OutputWord(TipIn(img.elements), terms) == Unpaid(w)
  {
    var s := TipIs(img.elements);
    match w
    case NoTransaction =>
    case NoSuchOutput =>
      var tip :| Subject(img, tip) && terms.outputIndex >= |tip.outputs|;
      SubjectIsTip(img, tip);
    case WrongScript =>
      var script, satoshis :| OutputAt(img, terms.outputIndex, script, satoshis) && script != terms.script;
      OutputIsTip(img, terms.outputIndex, script, satoshis);
    case Underpaid(satoshis) =>
      OutputIsTip(img, terms.outputIndex, terms.script, satoshis);
  }

  lemma OutputIsTip(img: Image, index: nat, script: seq<Byte>, satoshis: nat)
    requires OutputAt(img, index, script, satoshis)
    ensures var tip := TipIn(img.elements);
      tip.Some? && index < |tip.value.outputs| && tip.value.outputs[index] == TxOutput(script, satoshis)
  {
    var tip :| Subject(img, tip) && index < |tip.outputs| && tip.outputs[index] == TxOutput(script, satoshis);
    SubjectIsTip(img, tip);
  }

  lemma PaysIs(img: Image, terms: Terms, satoshis: nat, subject: Hash)
    requires PaysUnder(img, terms, satoshis, subject)
    ensures OutputWord(TipIn(img.elements), terms) == Pays(subject, satoshis)
  {
    var tip :| Subject(img, tip) && tip.txid == subject && terms.outputIndex < |tip.outputs|
               && tip.outputs[terms.outputIndex].script == terms.script
               && tip.outputs[terms.outputIndex].satoshis == satoshis;
    SubjectIsTip(img, tip);
  }

  /** The roots have one word. */
  lemma RootedOne(img: Image, headers: Headers, w: Word, w': Word)
    requires RootedMeans(img, headers, w) && RootedMeans(img, headers, w') && (w.Verified? ==> !w'.Verified?)
    ensures w == w'
  {
  }

  lemma RefusedHere(img: Image, units: nat, at: Cursor, refusal: Refusal)
    requires WellPlaced(img, at) && RefusedAt(img, units, at, refusal)
    ensures Run(img, units, at) == Stopped(refusal)
  {
    assert MicroStep(img, units, at) == Refuse(refusal);
  }

  /** A script that refuses is one the unsliced pass is refused by. */
  lemma RefusedStops(img: Image, units: nat, refusal: Refusal)
    requires RefusedInScripts(img, units, refusal)
    ensures Run(img, units, Start(true)) == Stopped(refusal)
  {
    var at: Cursor :| CursorOf(img, at) && at.checked && at.elements < |img.elements|
                      && RefusedAt(img, units, at, refusal)
                      && (at == Start(true) || Later(img, units, Start(true), at));
    RefusedHere(img, units, at, refusal);
  }

  /** And each is the pass's word whenever what it says is so. */
  lemma MeansWhole(img: Image, terms: Terms, units: nat, headers: Headers, w: Word, w': Word)
    requires WholeSays(img, terms, units, headers, w) && WordMeans(img, terms, units, headers, w')
    ensures w == w'
  {
    WholeMeans(img, terms, units, headers, w);
    WholeExactly(img, units, Start(false));
    if img.flaw.Some? {
      var at := StoppedAt(img, units, Start(false));
    } else {
      ReadWhole(img, units, false);
      if UnpaidMeans(img, terms, w') { UnpaidIs(img, terms, w'); } else {
        MeansPaid(img, terms, units, headers, w, w');
      }
    }
  }

  lemma MeansPaid(img: Image, terms: Terms, units: nat, headers: Headers, w: Word, w': Word)
    requires WholeSays(img, terms, units, headers, w) && WordMeans(img, terms, units, headers, w)
    requires WordMeans(img, terms, units, headers, w') && !UnpaidMeans(img, terms, w') && img.flaw.None?
    requires Run(img, units, Start(false)).Whole?
    ensures w == w'
  {
    ReadWhole(img, units, false);
    PaysSomeIs(img, terms);
    if w'.BytesRefused? { RefusedStops(img, units, w'.refusal); } else {
      WholeSpendable(img, terms, units);
      MeansRooted(img, terms, units, headers, w, w');
    }
  }

  lemma PaysSomeIs(img: Image, terms: Terms)
    requires PaysSome(img, terms)
    ensures OutputWord(TipIn(img.elements), terms).Pays?
  {
    var satoshis, subject :| PaysUnder(img, terms, satoshis, subject);
    PaysIs(img, terms, satoshis, subject);
  }

  lemma MeansRooted(img: Image, terms: Terms, units: nat, headers: Headers, w: Word, w': Word)
    requires RootedMeans(img, headers, w) && (w.Verified? ==> PaysUnder(img, terms, w.satoshis, w.subject))
    requires RootedMeans(img, headers, w') && (w'.Verified? ==> PaysUnder(img, terms, w'.satoshis, w'.subject))
    ensures w == w'
  {
    if w.Verified? && w'.Verified? {
      PaysIs(img, terms, w.satoshis, w.subject);
      PaysIs(img, terms, w'.satoshis, w'.subject);
    } else {
      RootedOne(img, headers, w, w');
    }
  }
}
