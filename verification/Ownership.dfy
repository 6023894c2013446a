/**
 Who owns an object at rest: message rows, deferred fees and owed announcements name objects of the
 bucket, and the hand-off, the drain, the re-ask and the reclaims delete only what nothing names.
 Every call to a store, to wallet-infra or to the broadcaster may answer anything, a failed write may
 have landed, and each operation here is one step.
 */
module Ownership {
  import opened Prelude
  import opened FeeLedger
  import Door = PaymentDoor

  type Stamp = Door.Stamp
  type RowId = nat

  const INLINE_BYTES: nat := 1024 * 1024
  const WALLET_WORD_SECS: nat := 86_400
  const MINTED_PENDING_SECS: nat := 3_600

  /** An announcement asked again until the broadcaster takes the subject. */
  datatype Owed = Owed(etag: string, attempts: nat, nextAt: nat)

  /** A write that was taken, one that was taken but answered as an error, one that was not taken. */
  datatype Write = Done | Lost | Refused

  datatype WalletWord = Accepts | Declines | Silent

  /** What a try meets: whether the deployment names a bucket, whether the row's arguments parse, and wallet-infra's
      answer, where silence may be that it cannot read the bucket. */
  datatype Wallet = Wallet(bucket: bool, parses: bool, word: WalletWord, cannotRead: bool)

  /** `r2Key` is the sender's upload, `spooled` where the relay already put the bytes, `size` the length
      of the bytes in the request when they can be read there. */
  datatype Paid = Paid(
    r2Key: Option<Key>, spooled: Option<Key>, spoolKey: Key, size: Option<nat>, feeOwed: bool,
    stamp: Option<Stamp>, txid: bool, rows: bool, now: nat)

  /** The broadcaster's answer (none when the deployment names none), whether the bytes could be read
      back, and wallet-infra's answer. */
  datatype Answers = Answers(announced: Option<bool>, readable: bool, wallet: WalletWord)

  datatype FeeWord = NotOwed | Internalized | Deferred | Ended

  datatype Refusal = InvalidPayment | KeyNotFound | Unavailable | Changed | Insufficient | Internal

  datatype Result<T> = Ok(value: T) | Err(why: Refusal)

  /** The fee's word and the object that must stay at rest. */
  datatype HandedOff = HandedOff(fee: FeeWord, kept: Option<Key>)

  /** What a row's insert comes to; a fault may have stored the row. */
  datatype Inserted = Stored | Duplicate | Full | Fault(landed: bool)

  /** One recipient of a send: its row, whether outputs were routed to it, and the store's answer. */
  datatype Intent = Intent(id: RowId, outputs: bool, answer: Inserted)

  /** What happens at the relay; the lists are what the ledger answers as due, released or minted. */
  datatype Op =
    | Sent(p: Paid, a: Answers, intents: seq<Intent>)
    | FeesDrained(now: nat, limit: nat, due: seq<Key>, wallets: Key -> Wallet)
    | Reasking(announcer: bool, now: nat, limit: nat, due: seq<Key>, takes: set<Key>)
    | ReleasedLookedAt(keys: seq<Key>, limit: nat)
    | MintedLookedAt(keys: seq<Key>, now: nat, limit: nat)
    | RowReleased(id: RowId)
    | Uploaded(key: Key, stamp: Stamp)
    | Minted(key: Key, deadline: nat)
    | StateSaved(key: Key, saved: bool)
    | StoresAre(steady: bool)

  /** What a drain began with. */
  datatype Before = Before(objects: map<Key, Stamp>, fees: map<Key, Fee>, history: seq<Event>)

  /** Where the bytes are at rest. */
  datatype AtRest = AtRest(key: Key, stamp: Stamp)

  datatype Drained = Drained(settled: nat, putOff: nat, ended: nat)

  datatype Reasked = Reasked(accepted: nat, putOff: nat)

  datatype Reclaimed = Reclaimed(deleted: nat, named: nat, putOff: nat)

  /** The ledger's rows after the fees of `due` were tried in turn with these outcomes. */
  function AfterTries(fees: map<Key, Fee>, due: seq<Key>, tried: seq<Tried>, now: nat): (r: map<Key, Fee>)
    requires |tried| <= |due|
  {
    if tried == [] then fees
    else
      var n := |tried| - 1;
      AfterEvent(AfterTries(fees, due, tried[..n], now), Try(due[n], tried[n], now, true))
  }

  /** The ledger's rows after one event. */
  function AfterEvent(fees: map<Key, Fee>, e: Event): (r: map<Key, Fee>) {
    var was := RowIn(fees, e.key);
    var row := After(was, e, e.key);
    if row == was then fees else if row.None? then fees - {e.key} else fees[e.key := row.value]
  }

  function RowIn(fees: map<Key, Fee>, key: Key): (r: Option<Fee>) {
    if key in fees then Some(fees[key]) else None
  }

  /** One event more, in the rows and in the history that made them. */
  lemma LedgerThen(fees: map<Key, Fee>, history: seq<Event>, e: Event)
    requires Legal(history) && forall key :: RowIn(fees, key) == Row(history, key)
    requires e.Try? ==> Due(RowIn(fees, e.key), e.now)
    ensures Legal(history + [e]) && forall key :: RowIn(AfterEvent(fees, e), key) == Row(history + [e], key)
  {
    LegalThen(history, e);
    forall key ensures RowIn(AfterEvent(fees, e), key) == Row(history + [e], key) {
      RowThen(history, e, key);
      assert RowIn(fees, key) == Row(history, key);
    }
  }

  lemma RowWritten(fees: map<Key, Fee>, key: Key, row: Option<Fee>, e: Event)
    requires e.key == key && row == After(RowIn(fees, key), e, key)
    ensures (if row.None? then fees - {key} else fees[key := row.value]) == AfterEvent(fees, e)
  {
  }

  /** The fees once one is owed at a key, an owed or ended one there kept as it is. */
  function Owing(fees: map<Key, Fee>, key: Key, etag: string, now: nat): (r: map<Key, Fee>) {
    fees[key := if key in fees then fees[key] else Fee(etag, 0, now, false)]
  }

  function Ending(fees: map<Key, Fee>, key: Key): (r: map<Key, Fee>)
    requires key in fees
  {
    fees[key := fees[key].(ended := true)]
  }

  lemma OwingIs(fees: map<Key, Fee>, key: Key, etag: string, now: nat)
    ensures AfterEvent(fees, Event.Defer(key, etag, now)) == Owing(fees, key, etag, now)
    ensures key in fees ==> AfterEvent(fees, EndByWord(key)) == Ending(fees, key)
  {
  }

  lemma MinusMinus(m: map<Key, Stamp>, gone: set<Key>, key: Key)
    ensures m - gone - {key} == m - (gone + {key})
  {
  }

  lemma OthersKept(fees: map<Key, Fee>, e: Event)
    ensures forall key :: key != e.key ==> RowIn(AfterEvent(fees, e), key) == RowIn(fees, key)
  {
  }

  lemma TriesThen(fees: map<Key, Fee>, due: seq<Key>, tried: seq<Tried>, one: Tried, now: nat)
    requires |tried| < |due|
    ensures AfterTries(fees, due, tried + [one], now) ==
      AfterEvent(AfterTries(fees, due, tried, now), Try(due[|tried|], one, now, true))
  {
    assert (tried + [one])[..|tried|] == tried;
  }

  /** A history with one event more, seen as the tries recorded so far. */
  lemma HistoryThen(was: seq<Event>, due: seq<Key>, tried: seq<Tried>, after: seq<Tried>, now: nat,
                    before: seq<Event>, history: seq<Event>)
    requires |tried| < |due| && before == was + Events(due, tried, now) && |history| == |before| + 1
    requires before <= history
    requires after == tried || (
      && |after| == |tried| + 1 && after[..|tried|] == tried
      && history == before + [Try(due[|tried|], after[|tried|], now, true)])
    ensures |after| == |tried| + 1 ==> history == was + Events(due, after, now)
    ensures was + Events(due, after, now) <= history && |history| <= |was| + |after| + 1
  {
    if |after| == |tried| + 1 {
      assert after == tried + [after[|tried|]];
      EventsThen(due, tried, after[|tried|], now);
      Associates(was, Events(due, tried, now), [Try(due[|tried|], after[|tried|], now, true)]);
    }
  }

  /** Every fee tried came to what its object and wallet-infra's answer say: settled only when the upload it was
      deferred for is at its key, the reference can be made and wallet-infra accepts, and while the stores are steady
      just then; ended just when the upload is not there, the reference cannot be made or wallet-infra cannot read the
      bucket. */
  predicate TriedRightly(was: Before, due: seq<Key>, tried: seq<Tried>, wallets: Key -> Wallet, steady: bool) {
    |tried| <= |due| && forall i :: 0 <= i < |tried| ==>
      TriedSo(SameUpload(was, due[i]), tried[i], wallets(due[i]), steady)
  }

  predicate TriedSo(same: bool, tried: Tried, w: Wallet, steady: bool) {
    && (tried.Settled? ==> same && w.bucket && w.parses && w.word.Accepts?)
    && (steady || !tried.PutOff? ==>
          && (tried.Settled? <==> same && w.bucket && w.parses && w.word.Accepts?)
          && (tried.Ends? <==> !same || !w.bucket || !w.parses || (w.word.Silent? && w.cannotRead)))
  }

  predicate SameUpload(was: Before, key: Key) {
    key in was.objects && key in was.fees && was.objects[key].etag == was.fees[key].etag
  }

  lemma TriedThen(was: Before, due: seq<Key>, tried: seq<Tried>, one: Tried, wallets: Key -> Wallet, steady: bool)
    requires |tried| < |due| && TriedRightly(was, due, tried, wallets, steady)
    requires TriedSo(SameUpload(was, due[|tried|]), one, wallets(due[|tried|]), steady)
    ensures TriedRightly(was, due, tried + [one], wallets, steady)
  {
  }

  lemma EventsThen(due: seq<Key>, tried: seq<Tried>, one: Tried, now: nat)
    requires |tried| < |due|
    ensures Events(due, tried + [one], now) == Events(due, tried, now) + [Try(due[|tried|], one, now, true)]
  {
  }

  /** The events of those tries. */
  function Events(due: seq<Key>, tried: seq<Tried>, now: nat): (r: seq<Event>)
    requires |tried| <= |due|
  {
    seq(|tried|, i requires 0 <= i < |tried| => Try(due[i], tried[i], now, true))
  }

  /** The keys the ledger answers as due: at most `limit`, each once, the longest waiting leading, and
      none left out that waited longer. */
  predicate DueFees(fees: map<Key, Fee>, now: nat, limit: nat, due: seq<Key>) {
    && |due| <= limit && Distinct(due)
    && (forall i :: 0 <= i < |due| ==> due[i] in fees && !fees[due[i]].ended && fees[due[i]].nextAt <= now)
    && (forall i, j :: 0 <= i < j < |due| ==> fees[due[i]].nextAt <= fees[due[j]].nextAt)
    && (forall k :: k in fees && !fees[k].ended && fees[k].nextAt <= now && k !in due ==>
          |due| == limit && forall i :: 0 <= i < |due| ==> fees[due[i]].nextAt <= fees[k].nextAt)
  }

  /** The row of an announcement that was not taken. */
  function PutOffAnnounce(owed: Owed, now: nat): (r: Owed) {
    var attempts := Min(owed.attempts + 1, U32_MAX);
    owed.(attempts := attempts, nextAt := now + BackoffSecs(attempts))
  }

  predicate DueAnnounces(owed: map<Key, Owed>, now: nat, limit: nat, due: seq<Key>) {
    && |due| <= limit && Distinct(due)
    && (forall i :: 0 <= i < |due| ==> due[i] in owed && owed[due[i]].nextAt <= now)
  }

  /** Trying the fees of a due list leaves every other key alone, and sets each tried key to what its own
      row and outcome say. */
  lemma {:induction false} AfterTriesAt(fees: map<Key, Fee>, due: seq<Key>, tried: seq<Tried>, now: nat, key: Key)
    requires |tried| <= |due| && Distinct(due)
    requires forall i :: 0 <= i < |due| ==> due[i] in fees
    ensures var r := AfterTries(fees, due, tried, now);
      && ((forall i :: 0 <= i < |tried| ==> due[i] != key) ==> RowIn(r, key) == RowIn(fees, key))
      && (forall i :: 0 <= i < |tried| && due[i] == key ==> LeftBy(fees[key], tried[i], now, RowIn(r, key)))
    decreases |tried|
  {
    if tried != [] {
      AfterTriesAt(fees, due, tried[..|tried| - 1], now, key);
    }
  }

  /** The row a try's outcome leaves: none once settled, an ended one where it cannot go on or has been put off for the
      thirtieth time, and otherwise one more attempt and its wait. */
  predicate LeftBy(fee: Fee, tried: Tried, now: nat, row: Option<Fee>) {
    match tried
    case Settled => row.None?
    case Ends => row == Some(fee.(ended := true))
    case PutOff =>
      if fee.attempts + 1 >= 30 then row == Some(fee.(ended := true))
      else row == Some(fee.(attempts := fee.attempts + 1, nextAt := now + BackoffSecs(fee.attempts + 1)))
  }

  /** Every fee tried has the row its outcome leaves. */
  lemma TriesLeave(fees: map<Key, Fee>, due: seq<Key>, tried: seq<Tried>, now: nat)
    requires |tried| <= |due| && Distinct(due)
    requires forall i :: 0 <= i < |due| ==> due[i] in fees
    ensures forall i :: 0 <= i < |tried| ==>
      LeftBy(fees[due[i]], tried[i], now, RowIn(AfterTries(fees, due, tried, now), due[i]))
  {
    forall i | 0 <= i < |tried|
      ensures LeftBy(fees[due[i]], tried[i], now, RowIn(AfterTries(fees, due, tried, now), due[i]))
    {
      AfterTriesAt(fees, due, tried, now, due[i]);
    }
  }

  /** What a drain came to for the fees it took, by their rows after it: gone, open, ended. */
  function TallyOf(fees: map<Key, Fee>, due: seq<Key>): (d: Drained) {
    if due == [] then Drained(0, 0, 0)
    else CountedIn(fees, TallyOf(fees, due[..|due| - 1]), due[|due| - 1])
  }

  function CountedIn(fees: map<Key, Fee>, d: Drained, key: Key): (r: Drained) {
    CountedRow(d, RowIn(fees, key))
  }

  function CountedRow(d: Drained, row: Option<Fee>): (r: Drained) {
    if row.None? then d.(settled := d.settled + 1)
    else if row.value.ended then d.(ended := d.ended + 1)
    else d.(putOff := d.putOff + 1)
  }

  lemma {:induction false} TallySums(fees: map<Key, Fee>, due: seq<Key>)
    ensures var d := TallyOf(fees, due); d.settled + d.putOff + d.ended == |due|
  {
    if due != [] { TallySums(fees, due[..|due| - 1]); }
  }

  /** A tally depends on the rows of its own keys alone. */
  lemma {:induction false} TallyKept(before: map<Key, Fee>, fees: map<Key, Fee>, due: seq<Key>)
    requires forall i :: 0 <= i < |due| ==>
      (due[i] in fees <==> due[i] in before) && (due[i] in fees ==> fees[due[i]] == before[due[i]])
    ensures TallyOf(fees, due) == TallyOf(before, due)
  {
    if due != [] { TallyKept(before, fees, due[..|due| - 1]); }
  }

  /** One more fee is tried and counted, the rows of those before it untouched. */
  lemma TallyThen(before: map<Key, Fee>, e: Event, due: seq<Key>, i: nat)
    requires i < |due| && Distinct(due) && e.key == due[i]
    ensures TallyOf(AfterEvent(before, e), due[..i + 1]) ==
      CountedIn(AfterEvent(before, e), TallyOf(before, due[..i]), due[i])
  {
    assert due[..i + 1][..i] == due[..i];
    TallyKept(before, AfterEvent(before, e), due[..i]);
  }

  /** The keys of the list that are not there. */
  function NotIn(keys: seq<Key>, there: set<Key>): (r: set<Key>) {
    set k | k in keys && k !in there
  }

  function AlsoIn(keys: seq<Key>, there: set<Key>): (r: set<Key>) {
    set k | k in keys && k in there
  }

  lemma KeysThen(keys: seq<Key>, i: nat)
    requires i < |keys| && Distinct(keys)
    ensures keys[i] !in keys[..i] && forall k :: k in keys[..i + 1] <==> k in keys[..i] || k == keys[i]
  {
    assert keys[..i + 1] == keys[..i] + [keys[i]];
  }

  /** One key more of a list, the others where they were. */
  lemma CountOne(keys: seq<Key>, i: nat, before: set<Key>, after: set<Key>)
    requires i < |keys| && Distinct(keys) && forall k :: k != keys[i] ==> (k in before <==> k in after)
    ensures |NotIn(keys[..i + 1], after)| == |NotIn(keys[..i], before)| + (if keys[i] in after then 0 else 1)
    ensures |AlsoIn(keys[..i + 1], after)| == |AlsoIn(keys[..i], before)| + (if keys[i] in after then 1 else 0)
  {
    KeysThen(keys, i);
    if keys[i] in after { AlsoInOne(keys[..i], keys[..i + 1], keys[i], before, after); }
    else { NotInOne(keys[..i], keys[..i + 1], keys[i], before, after); }
  }

  lemma AlsoInOne(keys: seq<Key>, more: seq<Key>, key: Key, before: set<Key>, after: set<Key>)
    requires key !in keys && (forall k :: k in more <==> k in keys || k == key) && key in after
    requires forall k :: k != key ==> (k in before <==> k in after)
    ensures |AlsoIn(more, after)| == |AlsoIn(keys, before)| + 1 && NotIn(more, after) == NotIn(keys, before)
  {
    assert AlsoIn(more, after) == AlsoIn(keys, before) + {key};
  }

  lemma NotInOne(keys: seq<Key>, more: seq<Key>, key: Key, before: set<Key>, after: set<Key>)
    requires key !in keys && (forall k :: k in more <==> k in keys || k == key) && key !in after
    requires forall k :: k != key ==> (k in before <==> k in after)
    ensures |NotIn(more, after)| == |NotIn(keys, before)| + 1 && AlsoIn(more, after) == AlsoIn(keys, before)
  {
    assert NotIn(more, after) == NotIn(keys, before) + {key};
  }

  lemma {:induction false} CountsSplit(keys: seq<Key>, there: set<Key>, i: nat)
    requires i <= |keys| && Distinct(keys)
    ensures |NotIn(keys[..i], there)| + |AlsoIn(keys[..i], there)| == i
  {
    if i > 0 {
      CountsSplit(keys, there, i - 1);
      CountOne(keys, i - 1, there, there);
    }
  }

  /** The keys of a list that stay are all but those that went. */
  lemma CountsStay(keys: seq<Key>, before: set<Key>, after: set<Key>)
    requires Distinct(keys) && after <= before
    requires forall i :: 0 <= i < |keys| ==> keys[i] in before
    requires forall key :: key in before && key !in after ==> key in keys
    ensures |AlsoIn(keys, after)| == |after| - |before| + |keys|
  {
    CountsSplit(keys, after, |keys|);
    assert keys[..|keys|] == keys;
    assert before == after + NotIn(keys, after);
  }

  /** A re-ask's counts after the first `i` keys: those whose row is gone, and those whose row is there. */
  predicate ReaskCounts(due: seq<Key>, i: nat, there: set<Key>, r: Reasked) {
    && i <= |due| && r.accepted + r.putOff == i
    && r.accepted == |NotIn(due[..i], there)| && r.putOff == |AlsoIn(due[..i], there)|
  }

  lemma ReaskCounted(due: seq<Key>, i: nat, before: set<Key>, after: set<Key>, r: Reasked)
    requires ReaskCounts(due, i, before, r) && i < |due| && Distinct(due)
    requires forall k :: k != due[i] ==> (k in before <==> k in after)
    ensures ReaskCounts(due, i + 1, after,
      if due[i] in after then r.(putOff := r.putOff + 1) else r.(accepted := r.accepted + 1))
  {
    CountOne(due, i, before, after);
  }

  /** The first `i` announcements of a re-ask are gone or put off, the others as they were. */
  predicate AskedUpTo(announces: map<Key, Owed>, owed0: map<Key, Owed>, due: seq<Key>, i: nat, now: nat) {
    && i <= |due|
    && (forall j :: i <= j < |due| ==>
          due[j] in owed0 && due[j] in announces && announces[due[j]] == owed0[due[j]])
    && (forall j :: 0 <= j < i && due[j] in announces ==>
          due[j] in owed0 && announces[due[j]] == PutOffAnnounce(owed0[due[j]], now))
  }

  /** One announcement more asked, the others left alone. */
  lemma AskedThen(before: map<Key, Owed>, after: map<Key, Owed>, owed0: map<Key, Owed>, due: seq<Key>, i: nat, now: nat)
    requires AskedUpTo(before, owed0, due, i, now) && i < |due| && Distinct(due)
    requires forall k :: k != due[i] ==>
      (k in after <==> k in before) && (k in after ==> after[k] == before[k])
    requires due[i] in after ==> after[due[i]] == PutOffAnnounce(owed0[due[i]], now)
    ensures AskedUpTo(after, owed0, due, i + 1, now)
  {
  }

  /** The broadcaster would take the bytes of the key, and they are the upload the announcement was owed for. */
  predicate Sound(objects0: map<Key, Stamp>, owed0: map<Key, Owed>, takes: set<Key>, key: Key) {
    key in takes && key in objects0 && key in owed0 && objects0[key].etag == owed0[key].etag
  }

  /** Of the first `i` announcements of a re-ask just the sound ones are gone. */
  predicate Weighed(announces: map<Key, Owed>, objects0: map<Key, Stamp>, owed0: map<Key, Owed>, takes: set<Key>,
                    due: seq<Key>, i: nat) {
    i <= |due| && forall j :: 0 <= j < i ==> (due[j] in announces <==> !Sound(objects0, owed0, takes, due[j]))
  }

  lemma WeighedThen(before: map<Key, Owed>, after: map<Key, Owed>, objects0: map<Key, Stamp>, owed0: map<Key, Owed>,
                    takes: set<Key>, due: seq<Key>, i: nat)
    requires Weighed(before, objects0, owed0, takes, due, i) && i < |due| && Distinct(due)
    requires forall k :: k != due[i] ==> (k in after <==> k in before)
    requires due[i] in after <==> !Sound(objects0, owed0, takes, due[i])
    ensures Weighed(after, objects0, owed0, takes, due, i + 1)
  {
  }

  /** A key a pass has looked at: gone from the record or waiting an hour more, and the latter just when its reading is
      pending, while the stores are steady. */
  predicate Passed(minted: map<Key, nat>, pending: set<Key>, steady: bool, key: Key, now: nat) {
    && (key in minted ==> minted[key] == now + 3_600)
    && (steady ==> (key in minted <==> key in pending))
  }

  predicate PassedUpTo(minted: map<Key, nat>, pending: set<Key>, steady: bool, keys: seq<Key>, i: nat, now: nat) {
    && i <= |keys| && (forall j :: i <= j < |keys| ==> keys[j] in minted)
    && forall j :: 0 <= j < i ==> Passed(minted, pending, steady, keys[j], now)
  }

  lemma PassedThen(before: map<Key, nat>, after: map<Key, nat>, pending: set<Key>, steady: bool, keys: seq<Key>, i: nat,
                   now: nat)
    requires PassedUpTo(before, pending, steady, keys, i, now) && i < |keys| && Distinct(keys)
    requires Passed(after, pending, steady, keys[i], now)
    requires forall k :: k != keys[i] ==>
      (k in after <==> k in before) && (k in after ==> after[k] == before[k])
    ensures PassedUpTo(after, pending, steady, keys, i + 1, now)
  {
  }

  /** A reclaim pass's counts after the first `i` keys: those still waiting are put off, and of those looked at for the
      last time the ones whose object is gone are deleted and the others named. */
  predicate ReclaimCounts(keys: seq<Key>, i: nat, waiting: set<Key>, objects: set<Key>, r: Reclaimed) {
    && i <= |keys| && r.deleted + r.named + r.putOff == i
    && r.putOff == |AlsoIn(keys[..i], waiting)| && r.deleted == |NotIn(keys[..i], waiting + objects)|
  }

  function ReclaimOne(r: Reclaimed, looked: Option<bool>): (r': Reclaimed) {
    if looked.None? then r.(putOff := r.putOff + 1)
    else if looked.value then r.(deleted := r.deleted + 1)
    else r.(named := r.named + 1)
  }

  lemma ReclaimCounted(keys: seq<Key>, i: nat, waiting: set<Key>, objects: set<Key>, waiting': set<Key>,
                       objects': set<Key>, r: Reclaimed, looked: Option<bool>)
    requires ReclaimCounts(keys, i, waiting, objects, r) && i < |keys| && Distinct(keys)
    requires forall k :: k != keys[i] ==>
      (k in waiting <==> k in waiting') && (k in objects <==> k in objects')
    requires looked.None? <==> keys[i] in waiting'
    requires looked.Some? ==> (looked.value <==> keys[i] !in objects')
    ensures ReclaimCounts(keys, i + 1, waiting', objects', ReclaimOne(r, looked))
  {
    CountOne(keys, i, waiting, waiting');
    CountOne(keys, i, waiting + objects, waiting' + objects');
  }

  /** An earlier recipient of the send with outputs has this row. */
  predicate Earlier(intents: seq<Intent>, i: nat, id: RowId)
    requires i <= |intents|
  {
    exists j :: 0 <= j < i && intents[j].outputs && intents[j].id == id
  }

  /** The row cannot be stored: the store does not take it, or its id is there already, of before or of this send. */
  predicate Unstored(rows: map<RowId, Key>, kept: Option<Key>, intents: seq<Intent>, i: nat)
    requires i < |intents|
  {
    intents[i].answer != Stored || intents[i].id in rows || (kept.Some? && Earlier(intents, i, intents[i].id))
  }

  /** The stores of the relay. */
  class Relay {
    /** The bucket: the object at each key, by its stamp. */
    var objects: map<Key, Stamp>
    /** The live rows that name an object. */
    var rows: map<RowId, Key>
    var fees: map<Key, Fee>
    var announces: map<Key, Owed>
    /** The keys rows have let go of. */
    var released: set<Key>
    /** The keys the relay minted, and when each is looked at. */
    var minted: map<Key, nat>
    /** The keys with a verification's state saved beside them. */
    var pending: set<Key>
    /** When the relay recorded that wallet-infra cannot read its bucket. */
    var walletWord: Option<nat>
    /** While the stores are steady they answer every call and take every write. */
    var steady: bool
    /** Every event at the fee ledger so far. */
    ghost var history: seq<Event>

    predicate RowNames(key: Key)
      reads this`rows
    {
      exists id :: id in rows && rows[id] == key
    }

    /** A live row, an open fee or an owed announcement names the object. */
    predicate Named(key: Key)
      reads this`rows, this`fees, this`announces
    {
      RowNames(key) || (key in fees && !fees[key].ended) || key in announces
    }

    /** No name is dangling. */
    ghost predicate NoDangling()
      reads this`objects, this`rows, this`fees, this`announces
    {
      forall key :: Named(key) ==> key in objects
    }

    function FeeAt(key: Key): (r: Option<Fee>)
      reads this`fees
    {
      RowIn(fees, key)
    }

    /** Nothing dangles, and the ledger is what its history of events made it. */
    ghost predicate Valid()
      reads this`objects, this`rows, this`fees, this`announces, this`history
    {
      NoDangling() && Ledgered()
    }

    /** The ledger's rows are those of its history. */
    ghost predicate Ledgered()
      reads this`fees, this`history
    {
      Legal(history) && forall key :: FeeAt(key) == Row(history, key)
    }

    constructor ()
      ensures Valid() && history == []
      ensures objects == map[] && rows == map[] && fees == map[] && announces == map[]
    {
      objects, rows, fees, announces := map[], map[], map[], map[];
      released, minted, pending, walletWord, steady, history := {}, map[], {}, None, false, [];
    }

    /** Whether a store fails to answer a call. */
    method Fails() returns (fails: bool)
      ensures steady ==> !fails
    {
      fails := *;
      fails := fails && !steady;
    }

    /** What a store makes of a write. */
    method Taken() returns (write: Write)
      ensures steady ==> write.Done?
    {
      write := *;
      if steady { write := Done; }
    }

    /** Write the row an event leaves. */
    method Record(key: Key, row: Option<Fee>, ghost e: Event)
      requires Valid() && e.key == key && row == After(FeeAt(key), e, key)
      requires e.Try? ==> Due(FeeAt(key), e.now)
      requires e.Defer? ==> key in objects
      modifies this`fees, this`history
      ensures Valid() && history == old(history) + [e]
      ensures fees == AfterEvent(old(fees), e)
    {
      RowWritten(fees, key, row, e);
      fees := if row.None? then fees - {key} else fees[key := row.value];
      LedgerThen(old(fees), history, e);
      history := history + [e];
    }

    // -----------------------------------------------------------------------
    // Reclaim
    // -----------------------------------------------------------------------

    /**
     Delete the object when nothing names it.  `None` is a store that could not answer.  Taken as one
     step, "deleted or already gone" means gone, and "not deleted" means named.
     */
    method Reclaim(key: Key) returns (deleted: Option<bool>)
      modifies this`objects
      ensures objects == old(objects) || (!Named(key) && objects == old(objects) - {key})
      ensures deleted.Some? && deleted.value ==> key !in objects && !Named(key)
      ensures deleted.Some? && !deleted.value ==> Named(key)
      ensures steady ==> deleted.Some?
      ensures old(Valid()) ==> Valid() && (deleted.Some? ==> Decided(key))
      ensures forall other :: other != key && old(Decided(other)) ==> Decided(other)
    {
      var claim := Taken();
      if !claim.Done? { return None; }
      deleted := ReclaimClaimed(key);
    }

    method ReclaimClaimed(key: Key) returns (deleted: Option<bool>)
      modifies this`objects
      ensures objects == old(objects) || (!Named(key) && objects == old(objects) - {key})
      ensures deleted.Some? && deleted.value ==> key !in objects && !Named(key)
      ensures deleted.Some? && !deleted.value ==> Named(key)
      ensures steady ==> deleted.Some?
      ensures old(Valid()) ==> Valid()
    {
      var fails := Fails();
      if fails { return None; }
      if Named(key) { return Some(false); }
      fails := Fails();
      if fails { return None; }
      if key !in objects { return Some(true); }
      var looked := objects[key];
      fails := Fails();
      if fails { return None; }
      if Named(key) { return Some(false); }
      fails := Fails();
      if fails { return None; }
      if key !in objects || objects[key] != looked { return Some(false); }
      var clear := Taken();
      if !clear.Refused? { objects := objects - {key}; }
      return if clear.Done? then Some(true) else None;
    }

    // -----------------------------------------------------------------------
    // The hand-off
    // -----------------------------------------------------------------------

    /** The size the hand-off goes by: the request's bytes, or the object's. */
    function SizeOf(p: Paid): (n: nat)
      reads this`objects
    {
      if p.r2Key.None? then (if p.size.Some? then p.size.value else 0)
      else if p.r2Key.value in objects then objects[p.r2Key.value].size else 0
    }

    /** The fee is recorded in the request: small enough, readable, and wallet-infra answers. */
    predicate RecordedNow(p: Paid, a: Answers)
      reads this`objects
    {
      p.feeOwed && SizeOf(p) <= INLINE_BYTES && (p.r2Key.Some? ==> a.readable)
    }

    /** Put the request's bytes at rest under the relay's own key, unless they are at rest already. */
    method Spool(p: Paid, rest: Option<AtRest>) returns (at: Result<AtRest>)
      requires Valid()
      requires rest.None? ==> p.size.Some?
      requires rest.Some? ==> rest.value.key in objects && objects[rest.value.key] == rest.value.stamp
      modifies this`objects
      ensures Valid()
      ensures rest.Some? ==> objects == old(objects) && at == Ok(rest.value)
      ensures at.Ok? ==> at.value.key in objects && objects[at.value.key] == at.value.stamp
      ensures rest.None? && at.Ok? ==> at.value.key == p.spoolKey && at.value.stamp.size == p.size.value
      ensures at.Err? ==> at.why == Unavailable && !steady
      ensures forall key :: key != p.spoolKey ==>
        (key in objects <==> key in old(objects)) && (key in objects ==> objects[key] == old(objects[key]))
      ensures p.spoolKey in old(objects) ==> p.spoolKey in objects
    {
      if rest.Some? { return Ok(rest.value); }
      var write := Taken();
      var etag: string := *;
      var stamp := Door.Stamp(p.size.value, etag);
      if !write.Refused? { objects := objects[p.spoolKey := stamp]; }
      at := if write.Done? then Ok(AtRest(p.spoolKey, stamp)) else Err(Unavailable);
    }

    /** The request's bytes cannot be read, its object is not there, or is not the one the door read. */
    predicate Unlocated(p: Paid)
      reads this`objects
    {
      || (p.r2Key.None? && p.size.None?)
      || (p.r2Key.Some? && p.r2Key.value !in objects)
      || (var key := if p.r2Key.Some? then p.r2Key else p.spooled;
          p.stamp.Some? && key.Some? && key.value in objects && p.stamp.value != objects[key.value])
    }

    /** wallet-infra's refusal to read the bucket still stands. */
    predicate WordStands(now: nat)
      reads this`walletWord
    {
      walletWord.Some? && now < walletWord.value + WALLET_WORD_SECS
    }

    /** Where the bytes are, held to the stamp the door read. */
    method Locate(p: Paid) returns (rest: Result<Option<AtRest>>)
      ensures rest == Err(InvalidPayment) <==> p.r2Key.None? && p.size.None?
      ensures rest.Ok? && p.r2Key.Some? ==> rest.value.Some? && rest.value.value.key == p.r2Key.value
      ensures rest.Ok? && rest.value.Some? ==>
        var at := rest.value.value;
        && at.key in objects && objects[at.key] == at.stamp
        && (p.stamp.Some? ==> p.stamp.value == at.stamp)
        && (p.r2Key.None? ==> Some(at.key) == p.spooled)
      ensures rest.Ok? && p.r2Key.None? && p.spooled.Some? && p.spooled.value in objects ==> rest.value.Some?
      ensures rest == Err(Changed) ==>
        var key := if p.r2Key.Some? then p.r2Key else p.spooled;
        p.stamp.Some? && key.Some? && key.value in objects && p.stamp.value != objects[key.value]
      ensures rest.Err? ==> !rest.why.Insufficient? && !rest.why.Internal? && (steady ==> !rest.why.Unavailable?)
      ensures steady ==> (rest.Err? <==> Unlocated(p))
      ensures steady ==> (rest == Err(KeyNotFound) <==> p.r2Key.Some? && p.r2Key.value !in objects)
    {
      if p.r2Key.None? && p.size.None? { return Err(InvalidPayment); }
      var key := if p.r2Key.Some? then p.r2Key else p.spooled;
      var found: Option<AtRest> := None;
      if key.Some? {
        var fails := Fails();
        if fails { return Err(if p.r2Key.Some? then KeyNotFound else Unavailable); }
        if key.value in objects { found := Some(AtRest(key.value, objects[key.value])); }
        else if p.r2Key.Some? { return Err(KeyNotFound); }
      }
      if p.stamp.Some? && found.Some? && p.stamp.value != found.value.stamp { return Err(Changed); }
      rest := Ok(found);
    }

    /** The broadcaster did not take a judged payment's subject. */
    predicate AnnounceOwed(p: Paid, a: Answers) {
      p.feeOwed && p.txid && a.announced == Some(false)
    }

    /** `rest` is where the payment's bytes may be at this point of its hand-off. */
    predicate Rests(p: Paid, rest: Option<AtRest>)
      reads this`objects
    {
      && (rest.None? ==> p.r2Key.None? && p.size.Some?)
      && (rest.Some? ==>
            && rest.value.key in objects && objects[rest.value.key] == rest.value.stamp
            && (if p.r2Key.Some? then rest.value.key == p.r2Key.value
                else Some(rest.value.key) == p.spooled || rest.value.key == p.spoolKey))
    }

    /** Only the object at the relay's own key for this payment was written. */
    twostate predicate OnlySpooled(p: Paid)
      reads this
    {
      && (forall key :: key in old(objects) ==> key in objects)
      && (forall key :: key in objects && key != p.spoolKey ==>
            key in old(objects) && objects[key] == old(objects[key]))
      && (p.r2Key.Some? ==> objects == old(objects))
    }

    /** The announcement is recorded as owed after its bytes are at rest; one owed at the key stays as it is. */
    method OweAnnounce(p: Paid, rest: Option<AtRest>) returns (at: Result<AtRest>)
      requires Valid() && Rests(p, rest)
      modifies this`objects, this`announces
      ensures Valid() && OnlySpooled(p)
      ensures rest.Some? ==> objects == old(objects)
      ensures at.Ok? ==> Rests(p, Some(at.value)) && (rest.Some? ==> at.value == rest.value)
      ensures at.Err? ==> at.why == Unavailable && !steady
      ensures at.Ok? ==> announces == old(announces)[at.value.key :=
        if at.value.key in old(announces) then old(announces)[at.value.key] else Owed(at.value.stamp.etag, 0, p.now)]
      ensures forall key :: key in old(announces) ==> key in announces && announces[key] == old(announces)[key]
    {
      at := Spool(p, rest);
      if at.Err? { return; }
      var write := Taken();
      var key := at.value.key;
      if !write.Refused? && key !in announces {
        announces := announces[key := Owed(at.value.stamp.etag, 0, p.now)];
      }
      if !write.Done? { at := Err(Unavailable); }
    }

    /** The fee is recorded as owed after its bytes are at rest, and ends at once while wallet-infra is
        known not to read the bucket. */
    method DeferFee(p: Paid, rest: Option<AtRest>) returns (word: Result<FeeWord>, at: Option<AtRest>)
      requires Valid() && Rests(p, rest)
      modifies this`objects, this`fees, this`history
      ensures Valid() && OnlySpooled(p)
      ensures rest.Some? ==> objects == old(objects)
      ensures word.Err? ==> word.why == Unavailable && !steady
      ensures steady ==> (word == Ok(Ended) <==> WordStands(p.now))
      ensures word.Ok? ==> at.Some? && Rests(p, at) && (rest.Some? ==> at == rest)
      ensures word.Ok? ==> word.value.Deferred? || word.value.Ended?
      ensures old(history) <= history
      ensures word == Ok(Deferred) ==> history == old(history) + [Event.Defer(at.value.key, at.value.stamp.etag, p.now)]
      ensures word == Ok(Deferred) ==> fees == Owing(old(fees), at.value.key, at.value.stamp.etag, p.now)
      ensures word == Ok(Ended) ==>
        fees == Ending(Owing(old(fees), at.value.key, at.value.stamp.etag, p.now), at.value.key)
      ensures word == Ok(Ended) ==>
        && WordStands(p.now)
        && history == old(history) + [Event.Defer(at.value.key, at.value.stamp.etag, p.now), EndByWord(at.value.key)]
    {
      var spooled := Spool(p, rest);
      if spooled.Err? { return Err(Unavailable), None; }
      at := Some(spooled.value);
      var write := Defer(at.value.key, at.value.stamp.etag, p.now);
      if !write.Done? { return Err(Unavailable), at; }
      var fails := Fails();
      if fails || !WordStands(p.now) { return Ok(Deferred), at; }
      write := End(at.value.key);
      word := if write.Done? then Ok(Ended) else Err(Unavailable);
    }

    /** An insert that leaves a row already at the key as it is. */
    method Defer(key: Key, etag: string, now: nat) returns (write: Write)
      requires Valid() && key in objects
      modifies this`fees, this`history
      ensures Valid() && (steady ==> write.Done?)
      ensures if write.Refused? then history == old(history) && fees == old(fees)
              else history == old(history) + [Event.Defer(key, etag, now)] && fees == Owing(old(fees), key, etag, now)
    {
      write := Taken();
      if !write.Refused? {
        var row := if key in fees then fees[key] else Fee(etag, 0, now, false);
        Record(key, Some(row), Event.Defer(key, etag, now));
        OwingIs(old(fees), key, etag, now);
      }
    }

    /** A row ends because wallet-infra cannot read the bucket. */
    method End(key: Key) returns (write: Write)
      requires Valid() && key in fees
      modifies this`fees, this`history
      ensures Valid() && (steady ==> write.Done?)
      ensures history == if write.Refused? then old(history) else old(history) + [EndByWord(key)]
      ensures fees == if write.Refused? then old(fees) else Ending(old(fees), key)
    {
      write := Taken();
      if !write.Refused? {
        OwingIs(fees, key, "", 0);
        Record(key, Some(fees[key].(ended := true)), EndByWord(key));
      }
    }

    /** The server's fee: recorded in the request when it fits and wallet-infra answers, deferred otherwise. */
    method TakeFee(p: Paid, a: Answers, rest: Option<AtRest>) returns (word: Result<FeeWord>, at: Option<AtRest>)
      requires Valid() && Rests(p, rest)
      modifies this`objects, this`fees, this`history
      ensures Valid() && OnlyOwnSpoolTouched(p)
      ensures word.Err? ==> word.why.Insufficient? || word.why.Unavailable?
      ensures word == Err(Insufficient) ==> old(RecordedNow(p, a)) && a.wallet.Declines? && history == old(history)
      ensures old(RecordedNow(p, a)) && a.wallet.Declines? ==> word.Err?
      ensures steady && word.Err? ==> word.why.Insufficient?
      ensures steady && (word == Ok(Ended) || word == Ok(Deferred)) ==> (word.value.Ended? <==> WordStands(p.now))
      ensures word.Ok? ==> Rests(p, at) && (rest.Some? ==> at == rest)
      ensures word.Ok? ==> (word.value.NotOwed? <==> !p.feeOwed)
      ensures word.Ok? ==> (word.value.Internalized? <==> old(RecordedNow(p, a)) && a.wallet.Accepts?)
      ensures old(history) <= history
      ensures word == Ok(Internalized) || word == Ok(NotOwed) ==> history == old(history)
      ensures word == Ok(Internalized) || word == Ok(NotOwed) || word == Err(Insufficient) ==> fees == old(fees)
      ensures word == Ok(Deferred) ==> at.Some? && fees == Owing(old(fees), at.value.key, at.value.stamp.etag, p.now)
      ensures word == Ok(Ended) ==>
        at.Some? && fees == Ending(Owing(old(fees), at.value.key, at.value.stamp.etag, p.now), at.value.key)
      ensures word == Ok(Deferred) ==>
        at.Some? && history == old(history) + [Event.Defer(at.value.key, at.value.stamp.etag, p.now)]
      ensures word == Ok(Ended) ==>
        && at.Some? && WordStands(p.now)
        && history == old(history) + [Event.Defer(at.value.key, at.value.stamp.etag, p.now), EndByWord(at.value.key)]
    {
      if !p.feeOwed { return Ok(NotOwed), rest; }
      if SizeOf(p) <= INLINE_BYTES && (p.r2Key.Some? ==> a.readable) && !a.wallet.Silent? {
        if a.wallet.Accepts? { return Ok(Internalized), rest; }
        if p.r2Key.None? && rest.Some? { var _ := Reclaim(rest.value.key); }
        return Err(Insufficient), rest;
      }
      word, at := DeferFee(p, rest);
    }

    /** The bytes at rest before a row or an owed announcement names them. */
    method PutAtRest(p: Paid, a: Answers, rest: Option<AtRest>) returns (at: Result<Option<AtRest>>)
      requires Valid() && Rests(p, rest)
      modifies this`objects, this`announces
      ensures Valid() && OnlySpooled(p)
      ensures at.Ok? ==> Rests(p, at.value) && (rest.Some? ==> at.value == rest)
      ensures at.Ok? && (p.rows || (p.feeOwed && p.txid && a.announced == Some(false))) ==> at.value.Some?
      ensures at.Err? ==> at.why == Unavailable && !steady
      ensures !p.feeOwed || !p.txid || a.announced != Some(false) ==> announces == old(announces)
      ensures at.Ok? && p.feeOwed && p.txid && a.announced == Some(false) ==>
        announces == old(announces)[at.value.value.key :=
          if at.value.value.key in old(announces) then old(announces)[at.value.value.key]
          else Owed(at.value.value.stamp.etag, 0, p.now)]
    {
      var found := rest;
      if p.rows {
        var spooled := Spool(p, found);
        if spooled.Err? { return Err(Unavailable); }
        found := Some(spooled.value);
      }
      if AnnounceOwed(p, a) {
        var owed := OweAnnounce(p, found);
        if owed.Err? { return Err(Unavailable); }
        found := Some(owed.value);
      }
      at := Ok(found);
    }

    /** A spool nothing will name goes now; what is kept is where the bytes are. */
    method Keep(p: Paid, keep: bool, rest: Option<AtRest>) returns (kept: Option<Key>)
      requires Valid() && Rests(p, rest)
      modifies this`objects
      ensures Valid()
      ensures kept == if keep && rest.Some? then Some(rest.value.key) else None
      ensures objects == old(objects) || (
        !keep && p.r2Key.None? && rest.Some? && !Named(rest.value.key) && objects == old(objects) - {rest.value.key})
    {
      if !keep && p.r2Key.None? && rest.Some? { var _ := Reclaim(rest.value.key); }
      kept := if keep && rest.Some? then Some(rest.value.key) else None;
    }

    // What a hand-off's answer says, part by part.

    /** The sender's upload is never touched; an object that goes is the relay's own spool, and unnamed. */
    twostate predicate OnlyOwnSpoolTouched(p: Paid)
      reads this
    {
      && (p.r2Key.Some? ==> objects == old(objects))
      && (forall key :: key in objects && key != p.spoolKey ==>
            key in old(objects) && objects[key] == old(objects[key]))
      && (forall key :: key in old(objects) && key !in objects ==>
            !Named(key) && (key == p.spoolKey || Some(key) == p.spooled))
    }

    /** The fee's word. */
    twostate predicate FeeSaid(p: Paid, a: Answers, new r: Result<HandedOff>)
      reads this
    {
      && (r.Ok? ==> (r.value.fee.NotOwed? <==> !p.feeOwed))
      && (r.Ok? ==> (r.value.fee.Internalized? <==> old(RecordedNow(p, a)) && a.wallet.Accepts?))
      && (old(RecordedNow(p, a)) && a.wallet.Declines? ==> r.Err?)
      && (r == Err(Insufficient) ==> old(RecordedNow(p, a)) && a.wallet.Declines?)
      && (r.Err? ==> !r.why.Internal?)
      && (steady && r.Ok? && (r.value.fee.Ended? || r.value.fee.Deferred?) ==>
            (r.value.fee.Ended? <==> WordStands(p.now)))
    }

    /** What is kept at rest, and why. */
    predicate KeptFor(p: Paid, a: Answers, h: HandedOff)
      reads this`objects
    {
      && (h.kept.Some? <==>
            || (p.rows && (p.feeOwed || p.r2Key.Some?)) || h.fee.Deferred?
            || (p.feeOwed && p.txid && a.announced == Some(false)))
      && (h.kept.Some? ==>
            && h.kept.value in objects
            && (if p.r2Key.Some? then h.kept.value == p.r2Key.value
                else Some(h.kept.value) == p.spooled || h.kept.value == p.spoolKey)
            && (p.stamp.Some? && p.r2Key.Some? ==> objects[h.kept.value] == p.stamp.value))
    }

    /** What the ledgers took. */
    twostate predicate LedgersTook(p: Paid, a: Answers, new r: Result<HandedOff>)
      reads this
    {
      AnnouncesTook(p, a, r) && FeesTook(p, a, r)
    }

    twostate predicate AnnouncesTook(p: Paid, a: Answers, new r: Result<HandedOff>)
      reads this
    {
      && (!p.feeOwed || !p.txid || a.announced == None || a.announced == Some(true) ==> announces == old(announces))
      && (r.Ok? && p.feeOwed && p.txid && a.announced == Some(false) ==>
            && r.value.kept.Some? && r.value.kept.value in objects
            && var key := r.value.kept.value;
               announces == old(announces)[key := if key in old(announces) then old(announces)[key]
                                                  else Owed(objects[key].etag, 0, p.now)])
    }

    twostate predicate FeesTook(p: Paid, a: Answers, new r: Result<HandedOff>)
      reads this
    {
      && old(history) <= history
      && (r == Err(Insufficient) ==> history == old(history) && fees == old(fees))
      && (r.Ok? && (r.value.fee.NotOwed? || r.value.fee.Internalized?) ==>
            history == old(history) && fees == old(fees))
      && (r.Ok? && r.value.fee.Deferred? ==>
            && r.value.kept.Some? && r.value.kept.value in objects
            && fees == Owing(old(fees), r.value.kept.value, objects[r.value.kept.value].etag, p.now)
            && history == old(history) + [Event.Defer(r.value.kept.value, objects[r.value.kept.value].etag, p.now)])
      && (r.Ok? && r.value.fee.Ended? ==>
            && WordStands(p.now)
            && exists key, etag :: history == old(history) + [Event.Defer(key, etag, p.now), EndByWord(key)] &&
                 fees == Ending(Owing(old(fees), key, etag, p.now), key) &&
                 (if p.r2Key.Some? then key == p.r2Key.value && key in objects && etag == objects[key].etag
                  else Some(key) == p.spooled || key == p.spoolKey))
    }

    /**
     The hand-off after a payment is verified.  Whatever the stores answer, nothing dangles; an answer
     says exactly which of the fee's four words it is, what is kept at rest and why, and what the
     ledgers took.
     */
    method HandOff(p: Paid, a: Answers) returns (r: Result<HandedOff>)
      requires Valid()
      modifies this`objects, this`fees, this`announces, this`history
      ensures Valid()
      ensures OnlyOwnSpoolTouched(p) && FeeSaid(p, a, r) && LedgersTook(p, a, r)
      ensures r.Ok? ==> KeptFor(p, a, r.value)
      ensures steady ==> (r.Err? <==> old(Unlocated(p)) || (old(RecordedNow(p, a)) && a.wallet.Declines?))
      ensures steady && r.Err? ==> !r.why.Unavailable?
      ensures r.Ok? && p.r2Key.None? ==>
        p.size.Some? && (r.value.fee.Internalized? <==> p.feeOwed && p.size.value <= 1_048_576 && a.wallet.Accepts?)
      ensures r.Ok? && p.r2Key.Some? ==>
        && p.r2Key.value in old(objects)
        && (r.value.fee.Internalized? <==>
              p.feeOwed && old(objects)[p.r2Key.value].size <= 1_048_576 && a.readable && a.wallet.Accepts?)
      ensures steady && r.Ok? && (r.value.fee.Ended? || r.value.fee.Deferred?) ==>
        (r.value.fee.Ended? <==> walletWord.Some? && p.now < walletWord.value + 86_400)
      ensures steady ==>
        && (r == Err(InvalidPayment) <==> p.r2Key.None? && p.size.None?)
        && (r == Err(KeyNotFound) <==> p.r2Key.Some? && p.r2Key.value !in old(objects))
      ensures steady && p.r2Key.Some? && p.r2Key.value in old(objects) ==>
        (r == Err(Changed) <==> p.stamp.Some? && p.stamp.value != old(objects)[p.r2Key.value])
      ensures steady && p.r2Key.None? && p.size.Some? ==>
        (r == Err(Changed) <==> p.spooled.Some? && p.spooled.value in old(objects)
                                && p.stamp.Some? && p.stamp.value != old(objects)[p.spooled.value])
      ensures r == Err(Changed) || r == Err(InvalidPayment) || r == Err(KeyNotFound) ==>
        objects == old(objects) && history == old(history) && announces == old(announces)
    {
      var located := Locate(p);
      if located.Err? { return Err(located.why); }
      if !p.feeOwed && p.r2Key.None? { return Ok(HandedOff(NotOwed, None)); }
      r := HandOffAt(p, a, located.value);
    }

    /** The rest of the hand-off, the bytes located. */
    method HandOffAt(p: Paid, a: Answers, located: Option<AtRest>) returns (r: Result<HandedOff>)
      requires Valid() && Rests(p, located) && (p.feeOwed || p.r2Key.Some?)
      requires p.stamp.Some? && located.Some? ==> located.value.stamp == p.stamp.value
      modifies this`objects, this`fees, this`announces, this`history
      ensures Valid()
      ensures OnlyOwnSpoolTouched(p) && FeeSaid(p, a, r) && LedgersTook(p, a, r)
      ensures r.Ok? ==> KeptFor(p, a, r.value)
      ensures r.Err? ==> r.why.Insufficient? || (r.why.Unavailable? && !steady)
    {
      var put := PutAtRest(p, a, located);
      if put.Err? { return Err(Unavailable); }
      r := Conclude(p, a, put.value);
    }

    /** The last of the hand-off, the bytes at rest when a row or an owed announcement will name them: the fee,
        and what is kept. */
    method Conclude(p: Paid, a: Answers, put: Option<AtRest>) returns (r: Result<HandedOff>)
      requires Valid() && Rests(p, put) && (p.rows || AnnounceOwed(p, a) ==> put.Some?) && (p.feeOwed || p.r2Key.Some?)
      requires p.stamp.Some? && p.r2Key.Some? && put.Some? ==> put.value.stamp == p.stamp.value
      modifies this`objects, this`fees, this`history
      ensures Valid()
      ensures OnlyOwnSpoolTouched(p) && FeeSaid(p, a, r) && FeesTook(p, a, r)
      ensures r.Ok? ==> KeptFor(p, a, r.value)
      ensures r.Ok? && p.feeOwed && p.txid && a.announced == Some(false) ==>
        && put.Some? && r.value.kept == Some(put.value.key)
        && put.value.key in objects && objects[put.value.key] == put.value.stamp
      ensures r.Err? ==> r.why.Insufficient? || (r.why.Unavailable? && !steady)
    {
      var fee, rest := TakeFee(p, a, put);
      if fee.Err? { return Err(fee.why); }
      var kept := Keep(p, p.rows || fee.value.Deferred? || AnnounceOwed(p, a), rest);
      r := Ok(HandedOff(fee.value, kept));
    }

    // -----------------------------------------------------------------------
    // A send
    // -----------------------------------------------------------------------

    /** After a send: its object goes when the send left nothing naming it, nothing else names it, and it
        is not the upload of a sender who may send again. */
    method ForgetUnnamed(naming: nat, h: HandedOff, r2Key: Option<Key>, failed: bool) returns (gone: bool)
      modifies this`objects
      ensures old(Valid()) ==> Valid()
      ensures var key := if h.kept.Some? then h.kept else r2Key;
        && (naming > 0 || h.fee.Deferred? || key.None? || (failed && key == r2Key) ==> !gone && objects == old(objects))
        && (objects == old(objects) || (!Named(key.value) && objects == old(objects) - {key.value}))
        && (gone ==> key.value !in objects && !Named(key.value))
        && (steady && naming == 0 && !h.fee.Deferred? && key.Some? && !(failed && key == r2Key) ==>
              (gone <==> !Named(key.value)))
    {
      if naming > 0 || h.fee.Deferred? { return false; }
      var key := if h.kept.Some? then h.kept else r2Key;
      if key.None? || (failed && key == r2Key) { return false; }
      var deleted := Reclaim(key.value);
      gone := deleted == Some(true);
    }

    /** Store one row; it names the object when its payment does.  A fault may have stored it. */
    method StoreRow(id: RowId, key: Option<Key>, answer: Inserted) returns (stored: bool)
      requires Valid() && (key.Some? ==> key.value in objects)
      modifies this`rows
      ensures Valid()
      ensures stored <==> answer == Stored && id !in old(rows)
      ensures rows == old(rows) || (key.Some? && id !in old(rows) && rows == old(rows)[id := key.value])
      ensures stored && key.Some? ==> id in rows && rows[id] == key.value
    {
      stored := answer == Stored && id !in rows;
      if id !in rows && key.Some? && (stored || answer == Fault(true)) { rows := rows[id := key.value]; }
    }

    /** The rows of one send, until one is not stored; each names the object where its recipient has outputs.  The send
        fails exactly when some row of it cannot be stored. */
    method StoreRows(kept: Option<Key>, intents: seq<Intent>) returns (naming: nat, failed: bool)
      requires Valid() && (kept.Some? ==> kept.value in objects)
      modifies this`rows
      ensures Valid()
      ensures forall id :: id in old(rows) ==> id in rows && rows[id] == old(rows)[id]
      ensures forall id :: id in rows && id !in old(rows) ==> kept.Some? && rows[id] == kept.value
      ensures naming > 0 ==> kept.Some? && RowNames(kept.value)
      ensures failed <==> exists i :: 0 <= i < |intents| && Unstored(old(rows), kept, intents, i)
      ensures !failed && kept.Some? ==> forall i :: 0 <= i < |intents| && intents[i].outputs ==>
        naming > 0 && intents[i].id in rows && rows[intents[i].id] == kept.value
    {
      naming, failed := 0, false;
      for i := 0 to |intents|
        invariant Valid()
        invariant kept.Some? ==> kept.value in objects
        invariant forall id :: id in old(rows) ==> id in rows && rows[id] == old(rows)[id]
        invariant forall id :: id in rows && id !in old(rows) ==> kept.Some? && rows[id] == kept.value
        invariant forall id :: id in rows && id !in old(rows) ==> Earlier(intents, i, id)
        invariant naming > 0 ==> kept.Some? && RowNames(kept.value)
        invariant forall j :: 0 <= j < i ==> !Unstored(old(rows), kept, intents, j)
        invariant kept.Some? ==> forall j :: 0 <= j < i && intents[j].outputs ==>
          naming > 0 && intents[j].id in rows && rows[intents[j].id] == kept.value
      {
        var key := if intents[i].outputs then kept else None;
        ghost var before := rows;
        var stored := StoreRow(intents[i].id, key, intents[i].answer);
        if kept.Some? { Kept(before, kept.value); }
        if !stored {
          assert Unstored(old(rows), kept, intents, i);
          return naming, true;
        }
        if key.Some? { naming := naming + 1; }
      }
    }

    /** A name outlives a store that only gains rows. */
    lemma Kept(before: map<RowId, Key>, key: Key)
      requires forall id :: id in before ==> id in rows && rows[id] == before[id]
      ensures (exists id :: id in before && before[id] == key) ==> RowNames(key)
    {
    }

    /** A send: the hand-off, its rows, and what nothing names after them. */
    method Send(p: Paid, a: Answers, intents: seq<Intent>) returns (r: Result<HandedOff>, failed: bool)
      requires Valid()
      modifies this`objects, this`rows, this`fees, this`announces, this`history
      ensures Valid()
      ensures steady ==> (r.Err? <==> old(Unlocated(p)) || (old(RecordedNow(p, a)) && a.wallet.Declines?))
      ensures forall id :: id in old(rows) ==> id in rows && rows[id] == old(rows)[id]
      ensures forall id :: id in rows && id !in old(rows) ==>
        r.Ok? && r.value.kept == Some(rows[id]) && rows[id] in objects
      ensures forall key :: key in old(objects) && key !in objects ==>
        !Named(key) && (key == p.spoolKey || Some(key) == p.spooled || (Some(key) == p.r2Key && r.Ok? && !failed))
      ensures forall key :: key in objects && key != p.spoolKey ==>
        key in old(objects) && objects[key] == old(objects[key])
      ensures FeeSaid(p, a, r) && old(history) <= history && AnnouncesTook(p, a, r)
      ensures r == Err(Insufficient) || (r.Ok? && (r.value.fee.NotOwed? || r.value.fee.Internalized?)) ==>
        history == old(history)
      ensures r.Ok? && r.value.fee.Deferred? ==>
        && r.value.kept.Some? && r.value.kept.value in objects
        && history == old(history) + [Event.Defer(r.value.kept.value, objects[r.value.kept.value].etag, p.now)]
    {
      r := HandOff(p, a);
      if r.Err? { return r, true; }
      failed := Deliver(p, r.value, intents);
    }

    /** The rows of a payment handed off, and then its object, when they left nothing naming it. */
    method Deliver(p: Paid, h: HandedOff, intents: seq<Intent>) returns (failed: bool)
      requires Valid() && (h.kept.Some? ==> h.kept.value in objects)
      modifies this`objects, this`rows
      ensures Valid()
      ensures forall id :: id in old(rows) ==> id in rows && rows[id] == old(rows)[id]
      ensures forall id :: id in rows && id !in old(rows) ==> h.kept == Some(rows[id]) && rows[id] in objects
      ensures var key := if h.kept.Some? then h.kept else p.r2Key;
        objects == old(objects) || (
          && key.Some? && !h.fee.Deferred? && !(failed && key == p.r2Key)
          && !Named(key.value) && objects == old(objects) - {key.value})
    {
      var kept := if p.rows then h.kept else None;
      var naming: nat;
      naming, failed := StoreRows(kept, intents);
      var _ := ForgetUnnamed(naming, h, p.r2Key, failed);
    }

    // -----------------------------------------------------------------------
    // The drain
    // -----------------------------------------------------------------------

    /** The outcome of trying one fee against the object there is; `unread` is wallet-infra's word that it
        cannot read the bucket.  Settled exactly when the verified upload is there, the bucket is named, the arguments
        parse and wallet-infra accepts; only a store that does not answer puts a fee off otherwise. */
    method TryFee(key: Key, fee: Fee, w: Wallet) returns (tried: Tried, unread: bool)
      ensures TriedSo(key in objects && objects[key].etag == fee.etag, tried, w, steady)
      ensures unread ==> tried.Ends?
      ensures steady || !tried.PutOff? ==>
        (unread <==> && key in objects && objects[key].etag == fee.etag && w.bucket && w.parses
                     && w.word.Silent? && w.cannotRead)
    {
      var fails := Fails();
      if fails { return PutOff, false; }
      if key !in objects || objects[key].etag != fee.etag || !w.bucket || !w.parses { return Ends, false; }
      if w.word.Accepts? { return Settled, false; }
      if w.word.Declines? { return PutOff, false; }
      return if w.cannotRead then Ends else PutOff, w.cannotRead;
    }

    /** The row a fee's outcome leaves, and the count of the arm taken. */
    method Arm(fee: Fee, tried: Tried, now: nat, d: Drained) returns (row: Option<Fee>, counted: Drained)
      requires !fee.ended
      ensures row == AfterTry(fee, tried, now) && LeftBy(fee, tried, now, row)
      ensures counted == if tried.Settled? then d.(settled := d.settled + 1)
                         else if tried.Ends? || fee.attempts >= 29 then d.(ended := d.ended + 1)
                         else d.(putOff := d.putOff + 1)
      ensures counted == CountedRow(d, row)
    {
      match tried
      case Settled =>
        row, counted := None, d.(settled := d.settled + 1);
      case PutOff =>
        var attempts := Min(fee.attempts + 1, U32_MAX);
        if attempts >= CEILING {
          row, counted := Some(fee.(ended := true)), d.(ended := d.ended + 1);
        } else {
          row := Some(fee.(attempts := attempts, nextAt := now + BackoffSecs(attempts)));
          counted := d.(putOff := d.putOff + 1);
        }
      case Ends =>
        row, counted := Some(fee.(ended := true)), d.(ended := d.ended + 1);
    }

    /** One due fee is tried, its outcome written and its arm counted; `ok` is a ledger that answered. */
    method DrainOne(key: Key, now: nat, d: Drained, wallet: Wallet)
      returns (tried: Tried, recorded: bool, ok: bool, counted: Drained)
      requires Valid() && Due(FeeAt(key), now)
      modifies this`objects, this`fees, this`history, this`walletWord
      ensures Valid() && history == old(history) + [Try(key, tried, now, recorded)]
      ensures ok ==> recorded
      ensures recorded ==> counted == CountedIn(fees, d, key)
      ensures steady ==> ok && (tried.Settled? ==> walletWord.None?)
      ensures walletWord == old(walletWord)
              || (tried.Ends? && walletWord == Some(now)) || (tried.Settled? && walletWord.None?)
      ensures fees == AfterEvent(old(fees), Try(key, tried, now, recorded))
      ensures TriedSo(key in old(objects) && old(objects)[key].etag == old(fees)[key].etag, tried, wallet, steady)
      ensures ok && tried.Ends? && key in old(objects) && old(objects)[key].etag == old(fees)[key].etag ==>
        (wallet.bucket && wallet.parses ==> walletWord == Some(now))
      ensures objects == old(objects) || (tried.Settled? && !Named(key) && objects == old(objects) - {key})
    {
      var unread;
      var write := Taken();
      var word := Taken();
      var fee := fees[key];
      tried, unread := TryFee(key, fee, wallet);
      var row;
      row, counted := Arm(fee, tried, now, d);
      if unread {
        if !word.Refused? { walletWord := Some(now); }
        if !word.Done? {
          Record(key, Some(fee), Try(key, tried, now, false));
          return tried, false, false, d;
        }
      }
      recorded := !write.Refused?;
      Record(key, if recorded then row else Some(fee), Try(key, tried, now, recorded));
      ok := write.Done?;
      if ok && tried.Settled? { ok := LetGo(key, word); }
    }

    /** After a fee is settled: its object goes when nothing else names it, and wallet-infra is known to read
        the bucket. */
    method LetGo(key: Key, word: Write) returns (ok: bool)
      requires Valid() && (steady ==> word.Done?)
      modifies this`objects, this`walletWord
      ensures Valid() && (steady ==> ok && walletWord.None?)
      ensures walletWord == old(walletWord) || walletWord.None?
      ensures objects == old(objects) || (!Named(key) && objects == old(objects) - {key})
    {
      ok := true;
      var _ := Reclaim(key);
      var fails := Fails();
      if !fails && walletWord.Some? {
        if !word.Refused? { walletWord := None; }
        ok := word.Done?;
      }
    }

    /** How far a drain has come from the stores it began with, the objects of `gone` deleted. */
    ghost predicate DrainedSo(was: Before, due: seq<Key>, tried: seq<Tried>, now: nat, wallets: Key -> Wallet,
                              gone: set<Key>)
      reads this`objects, this`rows, this`fees, this`announces, this`steady
    {
      && |tried| <= |due| && fees == AfterTries(was.fees, due, tried, now)
      && TriedRightly(was, due, tried, wallets, steady)
      && objects == was.objects - gone
      && (forall key :: key in gone ==> key in due && key !in fees && !RowNames(key) && key !in announces)
    }

    /** The fees of a drain from `i` on are as they were. */
    ghost predicate Untried(was: Before, due: seq<Key>, i: nat, now: nat)
      reads this`fees
    {
      forall j :: i <= j < |due| ==>
        due[j] in was.fees && FeeAt(due[j]) == Some(was.fees[due[j]]) && Due(FeeAt(due[j]), now)
    }

    /** The next fee of a drain. */
    method DrainAt(ghost was: Before, now: nat, due: seq<Key>, wallets: Key -> Wallet, ghost tried: seq<Tried>,
                   ghost gone: set<Key>, i: nat, d: Drained)
      returns (ok: bool, ghost after: seq<Tried>, ghost gone': set<Key>, counted: Drained)
      requires Valid() && i == |tried| < |due|
      requires DrainedSo(was, due, tried, now, wallets, gone) && Untried(was, due, i, now)
      modifies this`objects, this`fees, this`history, this`walletWord
      ensures Valid() && DrainedSo(was, due, after, now, wallets, gone')
      ensures after == tried || (|after| == i + 1 && after[..i] == tried)
      ensures ok ==> |after| == i + 1
      ensures steady ==> ok
      ensures ok ==> counted == CountedIn(fees, d, due[i])
      ensures |after| != i + 1 ==> fees == old(fees)
      ensures |after| == i + 1 ==> fees == AfterEvent(old(fees), Try(due[i], after[i], now, true))
      ensures |history| == |old(history)| + 1 && old(history) <= history
      ensures |after| == i + 1 ==> history == old(history) + [Try(due[i], after[i], now, true)]
    {
      var one, recorded;
      one, recorded, ok, counted := DrainOne(due[i], now, d, wallets(due[i]));
      after := if recorded then tried + [one] else tried;
      gone' := if objects == old(objects) then gone else gone + {due[i]};
      TriesThen(was.fees, due, tried, one, now);
      TriedThen(was, due, tried, one, wallets, steady);
      MinusMinus(was.objects, gone, due[i]);
    }

    /** The next fee of a drain, the fees after it untouched. */
    method DrainNext(ghost was: Before, now: nat, due: seq<Key>, wallets: Key -> Wallet, ghost tried: seq<Tried>,
                     ghost gone: set<Key>, i: nat, d: Drained)
      returns (ok: bool, ghost after: seq<Tried>, ghost gone': set<Key>, counted: Drained)
      requires Valid() && i == |tried| < |due| && Distinct(due)
      requires DrainedSo(was, due, tried, now, wallets, gone) && Untried(was, due, i, now)
      requires history == was.history + Events(due, tried, now)
      modifies this`objects, this`fees, this`history, this`walletWord
      ensures Valid() && DrainedSo(was, due, after, now, wallets, gone') && Untried(was, due, i + 1, now)
      ensures steady ==> ok
      ensures ok ==> counted == CountedIn(fees, d, due[i])
      ensures ok ==> |after| == i + 1 && history == was.history + Events(due, after, now)
      ensures ok ==> fees == AfterEvent(old(fees), Try(due[i], after[i], now, true))
      ensures !ok ==> was.history + Events(due, after, now) <= history && |history| <= |was.history| + |after| + 1
    {
      ok, after, gone', counted := DrainAt(was, now, due, wallets, tried, gone, i, d);
      if |after| == i + 1 { OthersKept(old(fees), Try(due[i], after[i], now, true)); }
      HistoryThen(was.history, due, tried, after, now, old(history), history);
    }

    /**
     The due fees tried in turn.  A drain that ends well tried every fee it took once, wrote every
     outcome, and counts what it did; one the ledger stopped wrote a prefix of them.
     */
    method DrainFees(now: nat, limit: nat, due: seq<Key>, wallets: Key -> Wallet)
      returns (r: Option<Drained>, ghost tried: seq<Tried>, ghost gone: set<Key>)
      requires Valid() && DueFees(fees, now, limit, due)
      modifies this`objects, this`fees, this`history, this`walletWord
      ensures Valid()
      ensures DrainedSo(Before(old(objects), old(fees), old(history)), due, tried, now, wallets, gone)
      ensures forall i :: 0 <= i < |tried| ==> LeftBy(old(fees)[due[i]], tried[i], now, FeeAt(due[i]))
      ensures steady ==> r.Some?
      ensures r.Some? ==> |tried| == |due| && history == old(history) + Events(due, tried, now)
      ensures r.Some? ==> r.value == TallyOf(fees, due) && r.value.settled + r.value.putOff + r.value.ended == |due|
      ensures r.None? ==> old(history) + Events(due, tried, now) <= history && |history| <= |old(history)| + |tried| + 1
    {
      tried, gone := [], {};
      ghost var was := Before(objects, fees, history);
      var d := Drained(0, 0, 0);
      for i := 0 to |due|
        invariant Valid() && |tried| == i && DrainedSo(was, due, tried, now, wallets, gone) && Untried(was, due, i, now)
        invariant d == TallyOf(fees, due[..i])
        invariant history == was.history + Events(due, tried, now)
      {
        ghost var before := fees;
        var ok;
        ok, tried, gone, d := DrainNext(was, now, due, wallets, tried, gone, i, d);
        if !ok {
          TriesLeave(was.fees, due, tried, now);
          return None, tried, gone;
        }
        TallyThen(before, Try(due[i], tried[i], now, true), due, i);
      }
      assert due[..|due|] == due;
      TallySums(fees, due);
      TriesLeave(was.fees, due, tried, now);
      r := Some(d);
    }

    // -----------------------------------------------------------------------
    // The re-ask
    // -----------------------------------------------------------------------

    /** One due announcement, offered only while the object still has the etag it was owed for.  `None` is
        a ledger that did not answer. */
    method ReaskOne(key: Key, now: nat, takes: bool) returns (accepted: Option<bool>)
      requires Valid() && key in announces
      modifies this`objects, this`announces
      ensures Valid()
      ensures announces == old(announces) - {key}
              || announces == old(announces)[key := PutOffAnnounce(old(announces)[key], now)]
              || (accepted.None? && announces == old(announces))
      ensures steady ==> accepted.Some?
      ensures accepted == Some(true) ==> announces == old(announces) - {key}
      ensures accepted == Some(false) ==> announces == old(announces)[key := PutOffAnnounce(old(announces)[key], now)]
      ensures var sound := takes && key in old(objects) && old(objects)[key].etag == old(announces)[key].etag;
        && (announces == old(announces) - {key} ==> sound)
        && (steady ==> (accepted == Some(true) <==> sound))
      ensures objects == old(objects) || (accepted == Some(true) && !Named(key) && objects == old(objects) - {key})
    {
      var owed := announces[key];
      var fails := Fails();
      var write := Taken();
      if !fails && key in objects && objects[key].etag == owed.etag && takes {
        if !write.Refused? { announces := announces - {key}; }
        if !write.Done? { return None; }
        var _ := Reclaim(key);
        return Some(true);
      }
      if !write.Refused? { announces := announces[key := PutOffAnnounce(owed, now)]; }
      accepted := if write.Done? then Some(false) else None;
    }

    /** How far a re-ask has come from the bucket and the announcements it began with, the objects of `gone` deleted. */
    ghost predicate AskedSo(objects0: map<Key, Stamp>, owed0: map<Key, Owed>, due: seq<Key>, now: nat, takes: set<Key>,
                            gone: set<Key>)
      reads this`objects, this`rows, this`fees, this`announces
    {
      && (forall key :: key in owed0 && key !in announces ==>
            key in due && key in takes && key in objects0 && objects0[key].etag == owed0[key].etag)
      && (forall key :: key in announces ==>
            && key in owed0
            && (announces[key] == owed0[key] || (key in due && announces[key] == PutOffAnnounce(owed0[key], now))))
      && objects == objects0 - gone && (forall key :: key in gone ==> key in due && !Named(key))
    }

    /** The next announcement of a re-ask, the others untouched. */
    method ReaskNext(ghost objects0: map<Key, Stamp>, ghost owed0: map<Key, Owed>, key: Key, ghost due: seq<Key>,
                     now: nat, takes: set<Key>, ghost gone: set<Key>)
      returns (accepted: Option<bool>, ghost gone': set<Key>)
      requires Valid() && AskedSo(objects0, owed0, due, now, takes, gone)
      requires key in due && key in announces && key in owed0 && announces[key] == owed0[key]
      modifies this`objects, this`announces
      ensures Valid() && AskedSo(objects0, owed0, due, now, takes, gone')
      ensures steady ==> accepted.Some?
      ensures accepted.Some? && key in announces ==> announces[key] == PutOffAnnounce(owed0[key], now)
      ensures accepted.Some? ==> (accepted.value <==> key !in announces)
      ensures steady ==> (key in announces <==> !Sound(objects0, owed0, takes, key))
      ensures forall other :: other != key ==>
        && (other in announces <==> other in old(announces))
        && (other in announces ==> announces[other] == old(announces)[other])
    {
      accepted := ReaskOne(key, now, key in takes);
      gone' := if objects == old(objects) then gone else gone + {key};
      MinusMinus(objects0, gone, key);
    }

    /**
     The due announcements asked again in turn.  A row goes only when the broadcaster took the bytes the
     door verified, and is counted so; a row asked and not taken has one more attempt and is due again its
     wait later; a deployment with no broadcaster asks nothing.
     */
    method ReaskAnnounces(announcer: bool, now: nat, limit: nat, due: seq<Key>, takes: set<Key>)
      returns (r: Option<Reasked>, ghost gone: set<Key>)
      requires Valid() && DueAnnounces(announces, now, limit, due)
      modifies this`objects, this`announces
      ensures Valid() && AskedSo(old(objects), old(announces), due, now, takes, gone)
      ensures !announcer ==>
        r == Some(Reasked(0, 0)) && gone == {} && objects == old(objects) && announces == old(announces)
      ensures steady ==> r.Some?
      ensures steady && announcer ==> forall key :: key in due ==>
        (key !in announces <==>
          key in takes && key in old(objects) && old(objects)[key].etag == old(announces)[key].etag)
      ensures announcer && r.Some? ==>
        && r.value.accepted == |NotIn(due, announces.Keys)| && r.value.putOff == |AlsoIn(due, announces.Keys)|
        && r.value.accepted + r.value.putOff == |due|
      ensures announcer && r.Some? ==> forall key :: key in due && key in announces ==>
        var was, attempts := old(announces)[key], Min(old(announces)[key].attempts + 1, 4_294_967_295);
        announces[key] == Owed(was.etag, attempts, now + BackoffSecs(attempts))
    {
      if !announcer { return Some(Reasked(0, 0)), {}; }
      r, gone := ReaskAll(now, due, takes);
      assert due[..|due|] == due;
    }

    /** The due announcements in turn. */
    method ReaskAll(now: nat, due: seq<Key>, takes: set<Key>) returns (r: Option<Reasked>, ghost gone: set<Key>)
      requires Valid() && Distinct(due) && forall i :: 0 <= i < |due| ==> due[i] in announces
      modifies this`objects, this`announces
      ensures Valid() && AskedSo(old(objects), old(announces), due, now, takes, gone)
      ensures steady ==> r.Some?
      ensures r.Some? ==> ReaskCounts(due, |due|, announces.Keys, r.value)
      ensures r.Some? ==> AskedUpTo(announces, old(announces), due, |due|, now)
      ensures steady ==> Weighed(announces, old(objects), old(announces), takes, due, |due|)
    {
      var came := Reasked(0, 0);
      gone := {};
      ghost var objects0, owed0 := objects, announces;
      for i := 0 to |due|
        invariant Valid() && AskedSo(objects0, owed0, due, now, takes, gone) && AskedUpTo(announces, owed0, due, i, now)
        invariant ReaskCounts(due, i, announces.Keys, came)
        invariant steady ==> Weighed(announces, objects0, owed0, takes, due, i)
      {
        var ok;
        ok, gone, came := ReaskAt(objects0, owed0, due, i, now, takes, gone, came);
        if !ok { return None, gone; }
      }
      r := Some(came);
    }

    /** The next announcement, counted. */
    method ReaskAt(ghost objects0: map<Key, Stamp>, ghost owed0: map<Key, Owed>, due: seq<Key>, i: nat, now: nat,
                   takes: set<Key>, ghost gone: set<Key>, came: Reasked)
      returns (ok: bool, ghost gone': set<Key>, counted: Reasked)
      requires Valid() && AskedSo(objects0, owed0, due, now, takes, gone) && i < |due| && Distinct(due)
      requires AskedUpTo(announces, owed0, due, i, now) && ReaskCounts(due, i, announces.Keys, came)
      requires steady ==> Weighed(announces, objects0, owed0, takes, due, i)
      modifies this`objects, this`announces
      ensures Valid() && AskedSo(objects0, owed0, due, now, takes, gone')
      ensures steady ==> ok
      ensures ok ==> AskedUpTo(announces, owed0, due, i + 1, now) && ReaskCounts(due, i + 1, announces.Keys, counted)
      ensures steady ==> Weighed(announces, objects0, owed0, takes, due, i + 1)
    {
      ghost var before := announces;
      var accepted;
      accepted, gone' := ReaskNext(objects0, owed0, due[i], due, now, takes, gone);
      if steady { WeighedThen(before, announces, objects0, owed0, takes, due, i); }
      if accepted.None? { return false, gone', came; }
      AskedThen(before, announces, owed0, due, i, now);
      ReaskCounted(due, i, before.Keys, announces.Keys, came);
      ok := true;
      counted := if accepted.value then came.(accepted := came.accepted + 1) else came.(putOff := came.putOff + 1);
    }

    // -----------------------------------------------------------------------
    // The keys rows let go of, and the keys minted
    // -----------------------------------------------------------------------

    /** A key looked at for the last time has its object if and only if something names it. */
    predicate Decided(key: Key)
      reads this`objects, this`rows, this`fees, this`announces
    {
      key in objects <==> Named(key)
    }

    /** Some keys' objects are deleted, all of them unnamed. */
    ghost predicate OnlyUnnamedGone(objects0: map<Key, Stamp>, keys: seq<Key>, gone: set<Key>)
      reads this`objects, this`rows, this`fees, this`announces
    {
      objects == objects0 - gone && forall key :: key in gone ==> key in keys && !Named(key)
    }

    /** The next released key: forgotten only when decided. */
    method LookAtReleased(ghost objects0: map<Key, Stamp>, ghost keys: seq<Key>, key: Key, ghost gone: set<Key>)
      returns (r: Option<Option<bool>>, ghost gone': set<Key>)
      requires Valid() && key in released && key in keys && OnlyUnnamedGone(objects0, keys, gone)
      modifies this`objects, this`released
      ensures Valid() && OnlyUnnamedGone(objects0, keys, gone')
      ensures released == old(released) || (released == old(released) - {key} && Decided(key))
      ensures r.Some? ==> (r.value.Some? <==> released == old(released) - {key})
      ensures r.Some? && r.value.Some? ==> (r.value.value <==> key !in objects)
      ensures objects == old(objects) || objects == old(objects) - {key}
      ensures steady ==> r.Some? && r.value.Some?
      ensures forall other :: other != key && old(Decided(other)) ==> Decided(other)
    {
      var deleted := Reclaim(key);
      gone' := if objects == old(objects) then gone else gone + {key};
      MinusMinus(objects0, gone, key);
      if deleted.None? { return Some(None), gone'; }
      var write := Taken();
      if !write.Refused? { released := released - {key}; }
      r := if write.Done? then Some(deleted) else None;
    }

    /** A pass over released keys.  A key is forgotten only when it was decided, and one the stores could not
        answer for stays to be looked at again. */
    method ReclaimReleased(keys: seq<Key>, limit: nat) returns (r: Option<Reclaimed>, ghost gone: set<Key>)
      requires Valid() && |keys| <= limit && Distinct(keys)
      requires forall i :: 0 <= i < |keys| ==> keys[i] in released
      modifies this`objects, this`released
      ensures Valid() && released <= old(released) && OnlyUnnamedGone(old(objects), keys, gone)
      ensures steady ==> r.Some? && r.value.putOff == 0
      ensures r.Some? ==> r.value.deleted + r.value.named + r.value.putOff == |keys|
      ensures r.Some? ==> r.value.putOff == |released| - |old(released)| + |keys|
      ensures r.Some? ==>
        && r.value.putOff == |AlsoIn(keys, released)| && r.value.deleted == |NotIn(keys, released + objects.Keys)|
      ensures forall key :: key in old(released) && key !in released ==> key in keys && Decided(key)
    {
      ghost var released0 := released;
      r, gone := ReleasedAll(keys);
      if r.Some? { CountsStay(keys, released0, released); }
    }

    /** The released keys of a pass in turn. */
    method ReleasedAll(keys: seq<Key>) returns (r: Option<Reclaimed>, ghost gone: set<Key>)
      requires Valid() && Distinct(keys) && forall i :: 0 <= i < |keys| ==> keys[i] in released
      modifies this`objects, this`released
      ensures Valid() && OnlyUnnamedGone(old(objects), keys, gone) && Forgotten(old(released), keys)
      ensures steady ==> r.Some? && r.value.putOff == 0
      ensures r.Some? ==>
        && r.value.deleted + r.value.named + r.value.putOff == |keys|
        && r.value.putOff == |AlsoIn(keys, released)| && r.value.deleted == |NotIn(keys, released + objects.Keys)|
    {
      var came := Reclaimed(0, 0, 0);
      ghost var objects0, released0 := objects, released;
      gone := {};
      for i := 0 to |keys|
        invariant Valid() && OnlyUnnamedGone(objects0, keys, gone) && Forgotten(released0, keys)
        invariant (forall j :: i <= j < |keys| ==> keys[j] in released) && (steady ==> came.putOff == 0)
        invariant ReclaimCounts(keys, i, released, objects.Keys, came)
      {
        var ok;
        ok, gone, came := ReleasedAt(objects0, released0, keys, i, gone, came);
        if !ok { return None, gone; }
      }
      assert keys[..|keys|] == keys;
      r := Some(came);
    }

    /** What a pass has made of the released keys: one gone was decided. */
    ghost predicate Forgotten(released0: set<Key>, keys: seq<Key>)
      reads this`objects, this`rows, this`fees, this`announces, this`released
    {
      released <= released0 && forall key :: key in released0 && key !in released ==> key in keys && Decided(key)
    }

    /** The next released key, counted. */
    method ReleasedAt(ghost objects0: map<Key, Stamp>, ghost released0: set<Key>, keys: seq<Key>, i: nat,
                      ghost gone: set<Key>, came: Reclaimed)
      returns (ok: bool, ghost gone': set<Key>, counted: Reclaimed)
      requires Valid() && i < |keys| && Distinct(keys)
      requires OnlyUnnamedGone(objects0, keys, gone) && ReclaimCounts(keys, i, released, objects.Keys, came)
      requires Forgotten(released0, keys) && keys[i] in released
      modifies this`objects, this`released
      ensures Valid() && OnlyUnnamedGone(objects0, keys, gone') && Forgotten(released0, keys)
      ensures ok ==> ReclaimCounts(keys, i + 1, released, objects.Keys, counted)
      ensures released == old(released) || released == old(released) - {keys[i]}
      ensures steady ==> ok && counted.putOff == came.putOff
    {
      ghost var waiting, there := released, objects.Keys;
      var looked;
      looked, gone' := LookAtReleased(objects0, keys, keys[i], gone);
      if looked.None? { return false, gone', came; }
      ReclaimCounted(keys, i, waiting, there, released, objects.Keys, came, looked.value);
      ok, counted := true, ReclaimOne(came, looked.value);
    }

    /** One minted key: `None` is a store that did not answer, `Some(None)` one that waits again. */
    method LookAtMinted(key: Key, now: nat) returns (r: Option<Option<bool>>)
      requires Valid() && key in minted
      modifies this`objects, this`minted
      ensures Valid()
      ensures minted == old(minted) - {key} || minted == old(minted)[key := now + MINTED_PENDING_SECS]
              || (r.None? && minted == old(minted))
      ensures key !in minted ==> Decided(key) && key !in pending
      ensures r.Some? ==> (r.value.None? <==> key in minted)
      ensures r.Some? && r.value.Some? ==> (r.value.value <==> key !in objects)
      ensures steady ==> r.Some?
      ensures r.Some? ==> Passed(minted, pending, steady, key, now)
      ensures forall other :: other != key && old(Decided(other)) ==> Decided(other)
      ensures objects == old(objects) || (!Named(key) && key !in pending && objects == old(objects) - {key})
    {
      var deleted: Option<bool> := None;
      var fails := Fails();
      if !fails && key !in pending { deleted := Reclaim(key); }
      var write := Taken();
      if !write.Refused? {
        minted := if deleted.None? then minted[key := now + MINTED_PENDING_SECS] else minted - {key};
      }
      r := if write.Done? then Some(deleted) else None;
    }

    /** What a pass has made of the record of minted keys: one gone was decided and not pending, one there is as it
        was or waits again. */
    ghost predicate MintedSo(minted0: map<Key, nat>, keys: seq<Key>, now: nat)
      reads this`objects, this`rows, this`fees, this`announces, this`minted, this`pending
    {
      && (forall key :: key in minted0 && key !in minted ==> key in keys && Decided(key) && key !in pending)
      && (forall key :: key in minted ==>
            && key in minted0
            && (minted[key] == minted0[key] || (key in keys && minted[key] == now + 3_600)))
    }

    /** The next minted key of a pass. */
    method MintedNext(ghost objects0: map<Key, Stamp>, ghost minted0: map<Key, nat>, ghost keys: seq<Key>, key: Key,
                      now: nat, ghost gone: set<Key>)
      returns (r: Option<Option<bool>>, ghost gone': set<Key>)
      requires Valid() && key in minted && key in keys && OnlyUnnamedGone(objects0, keys, gone) && gone !! pending
      requires MintedSo(minted0, keys, now)
      modifies this`objects, this`minted
      ensures Valid() && OnlyUnnamedGone(objects0, keys, gone') && gone' !! pending && MintedSo(minted0, keys, now)
      ensures r.Some? ==> (r.value.None? <==> key in minted)
      ensures r.Some? && r.value.Some? ==> (r.value.value <==> key !in objects)
      ensures objects == old(objects) || objects == old(objects) - {key}
      ensures steady ==> r.Some?
      ensures r.Some? ==> Passed(minted, pending, steady, key, now)
      ensures forall other :: other != key ==>
        (other in minted <==> other in old(minted)) && (other in minted ==> minted[other] == old(minted)[other])
    {
      r := LookAtMinted(key, now);
      gone' := if objects == old(objects) then gone else gone + {key};
      MinusMinus(objects0, gone, key);
    }

    /** A pass over minted keys past their deadline.  One whose reading is pending keeps its object and
        waits again; one forgotten was decided. */
    method ReclaimMinted(keys: seq<Key>, now: nat, limit: nat) returns (r: Option<Reclaimed>, ghost gone: set<Key>)
      requires Valid() && |keys| <= limit && Distinct(keys)
      requires forall i :: 0 <= i < |keys| ==> keys[i] in minted && minted[keys[i]] <= now
      modifies this`objects, this`minted
      ensures Valid() && OnlyUnnamedGone(old(objects), keys, gone) && gone !! pending
      ensures MintedSo(old(minted), keys, now)
      ensures r.Some? ==> r.value.deleted + r.value.named + r.value.putOff == |keys|
      ensures r.Some? ==>
        && r.value.putOff == |AlsoIn(keys, minted.Keys)|
        && r.value.deleted == |NotIn(keys, minted.Keys + objects.Keys)|
      ensures steady ==> r.Some?
      ensures r.Some? ==> forall i :: 0 <= i < |keys| ==> Passed(minted, pending, steady, keys[i], now)
    {
      var came := Reclaimed(0, 0, 0);
      ghost var objects0, minted0 := objects, minted;
      gone := {};
      for i := 0 to |keys|
        invariant Valid() && OnlyUnnamedGone(objects0, keys, gone) && gone !! pending
        invariant MintedSo(minted0, keys, now) && ReclaimCounts(keys, i, minted.Keys, objects.Keys, came)
        invariant PassedUpTo(minted, pending, steady, keys, i, now)
      {
        var ok;
        ok, gone, came := MintedAt(objects0, minted0, keys, i, now, gone, came);
        if !ok { return None, gone; }
      }
      assert keys[..|keys|] == keys;
      r := Some(came);
    }

    /** The next minted key, counted. */
    method MintedAt(ghost objects0: map<Key, Stamp>, ghost minted0: map<Key, nat>, keys: seq<Key>, i: nat, now: nat,
                    ghost gone: set<Key>, came: Reclaimed)
      returns (ok: bool, ghost gone': set<Key>, counted: Reclaimed)
      requires Valid() && i < |keys| && PassedUpTo(minted, pending, steady, keys, i, now) && Distinct(keys)
      requires OnlyUnnamedGone(objects0, keys, gone) && gone !! pending && MintedSo(minted0, keys, now)
      requires ReclaimCounts(keys, i, minted.Keys, objects.Keys, came)
      modifies this`objects, this`minted
      ensures Valid() && OnlyUnnamedGone(objects0, keys, gone') && gone' !! pending && MintedSo(minted0, keys, now)
      ensures steady ==> ok
      ensures ok ==> PassedUpTo(minted, pending, steady, keys, i + 1, now)
      ensures ok ==> ReclaimCounts(keys, i + 1, minted.Keys, objects.Keys, counted)
    {
      ghost var waiting, there := minted, objects.Keys;
      var looked;
      looked, gone' := MintedNext(objects0, minted0, keys, keys[i], now, gone);
      if looked.None? { return false, gone', came; }
      ReclaimCounted(keys, i, waiting.Keys, there, minted.Keys, objects.Keys, came, looked.value);
      PassedThen(waiting, minted, pending, steady, keys, i, now);
      ok, counted := true, ReclaimOne(came, looked.value);
    }

    // -----------------------------------------------------------------------
    // What else happens, and whole runs
    // -----------------------------------------------------------------------

    /** A row is deleted or retired: its key is released. */
    method ReleaseRow(id: RowId)
      requires Valid()
      modifies this`rows, this`released
      ensures Valid() && rows == old(rows) - {id}
      ensures released == if id in old(rows) then old(released) + {old(rows)[id]} else old(released)
    {
      if id in rows { released := released + {rows[id]}; }
      rows := rows - {id};
    }

    /** A sender puts bytes at a key, over whatever is there. */
    method Upload(key: Key, stamp: Stamp)
      requires Valid()
      modifies this`objects
      ensures Valid() && objects == old(objects)[key := stamp]
    {
      objects := objects[key := stamp];
    }

    /** The earliest deadline recorded for a key stands. */
    method Mint(key: Key, deadline: nat)
      requires Valid()
      modifies this`minted
      ensures Valid() && minted == old(minted)[key := if key in old(minted) then old(minted)[key] else deadline]
    {
      if key !in minted { minted := minted[key := deadline]; }
    }

    /** A verification saves or clears its state beside the key. */
    method SaveState(key: Key, saved: bool)
      requires Valid()
      modifies this`pending
      ensures Valid() && pending == if saved then old(pending) + {key} else old(pending) - {key}
    {
      pending := if saved then pending + {key} else pending - {key};
    }

    /**
     Any operations in any order: after every one of them no name dangles, and the fee ledger is what a
     legal history made it.
     */
    method Serve(ops: seq<Op>)
      requires Valid()
      modifies this
      ensures Valid() && old(history) <= history
    {
      for i := 0 to |ops|
        invariant Valid() && old(history) <= history
      {
        Perform(ops[i]);
      }
    }

    method Perform(op: Op)
      requires Valid()
      modifies this
      ensures Valid() && old(history) <= history
    {
      match op
      case Sent(p, a, intents) => var _, _ := Send(p, a, intents);
      case FeesDrained(now, limit, due, wallets) =>
        if DueFees(fees, now, limit, due) { var _, _, _ := DrainFees(now, limit, due, wallets); }
      case Reasking(announcer, now, limit, due, takes) =>
        if DueAnnounces(announces, now, limit, due) { var _, _ := ReaskAnnounces(announcer, now, limit, due, takes); }
      case ReleasedLookedAt(keys, limit) =>
        if |keys| <= limit && Distinct(keys) && forall i :: 0 <= i < |keys| ==> keys[i] in released {
          var _, _ := ReclaimReleased(keys, limit);
        }
      case MintedLookedAt(keys, now, limit) =>
        if |keys| <= limit && Distinct(keys) && forall i :: 0 <= i < |keys| ==>
            keys[i] in minted && minted[keys[i]] <= now {
          var _, _ := ReclaimMinted(keys, now, limit);
        }
      case RowReleased(id) => ReleaseRow(id);
      case Uploaded(key, stamp) => Upload(key, stamp);
      case Minted(key, deadline) => Mint(key, deadline);
      case StateSaved(key, saved) => SaveState(key, saved);
      case StoresAre(answering) => steady := answering;
    }
  }
}
