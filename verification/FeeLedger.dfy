/**
 The ledger of deferred fees: one row a key, and every event that touches a row.  A fee is put off with
 a growing wait up to a ceiling of attempts, and is then settled or ended.
 */
module FeeLedger {
  import opened Prelude

  type Key = string

  datatype Fee = Fee(etag: string, attempts: nat, nextAt: nat, ended: bool)

  /** The outcome of a try. */
  datatype Tried = Settled | PutOff | Ends

  /** The attempts a fee is tried before it ends. */
  const CEILING: nat := 30
  const DAY: nat := 86400
  const U32_MAX: nat := 0xffff_ffff

  // -------------------------------------------------------------------------
  // The wait between two tries
  // -------------------------------------------------------------------------

  function Pow2(n: nat): (p: nat) {
    if n == 0 then 1 else 2 * Pow2(n - 1)
  }

  /** The seconds before the next try: doubled from 60 and capped, with the exponent capped first. */
  function BackoffSecs(attempts: nat): (secs: nat) {
    Min(Min(60 * Pow2(Min(SaturatingSub(attempts, 1), 20)), U64_MAX), DAY)
  }

  lemma {:induction false} Pow2Grows(a: nat, b: nat)
    requires a <= b
    ensures 1 <= Pow2(a) <= Pow2(b)
    decreases b
  {
    if a < b { Pow2Grows(a, b - 1); } else if 0 < a { Pow2Grows(a - 1, a - 1); }
  }

  lemma SmallPowers()
    ensures Pow2(10) == 1024 && Pow2(11) == 2048 && Pow2(20) == 1048576
  {
    assert Pow2(5) == 32;
    assert Pow2(10) == 1024;
    assert Pow2(15) == 32768;
  }

  /** For every attempt count the product stays far inside 64 bits, and the wait is the plain doubling
      up to the eleventh attempt and a day from the twelfth on. */
  lemma BackoffIs(attempts: nat)
    ensures 60 * Pow2(Min(SaturatingSub(attempts, 1), 20)) <= 62_914_560 < U64_MAX
    ensures attempts == 0 ==> BackoffSecs(attempts) == 60
    ensures 1 <= attempts <= 11 ==> BackoffSecs(attempts) == 60 * Pow2(attempts - 1)
    ensures 12 <= attempts ==> BackoffSecs(attempts) == 86_400
  {
    SmallPowers();
    Pow2Grows(Min(SaturatingSub(attempts, 1), 20), 20);
    if 12 <= attempts { Pow2Grows(11, Min(SaturatingSub(attempts, 1), 20)); }
    else { Pow2Grows(Min(SaturatingSub(attempts, 1), 20), 10); }
  }

  lemma BackoffGrows(a: nat, b: nat)
    requires a <= b
    ensures 60 <= BackoffSecs(a) <= BackoffSecs(b) <= 86_400
  {
    BackoffIs(a);
    BackoffIs(b);
    Pow2Grows(0, Min(SaturatingSub(a, 1), 20));
    Pow2Grows(Min(SaturatingSub(a, 1), 20), Min(SaturatingSub(b, 1), 20));
  }

  // -------------------------------------------------------------------------
  // The events at a row
  // -------------------------------------------------------------------------

  /**
   A send defers a fee (an insert that leaves a row already at the key as it is), the drain tries one
   (`recorded` says whether the ledger took the outcome), or a send ends the row because wallet-infra
   cannot read the relay's bucket.
   */
  datatype Event =
    | Defer(key: Key, etag: string, now: nat)
    | Try(key: Key, tried: Tried, now: nat, recorded: bool)
    | EndByWord(key: Key)

  function AfterTry(fee: Fee, tried: Tried, now: nat): (r: Option<Fee>) {
    match tried
    case Settled => None
    case Ends => Some(fee.(ended := true))
    case PutOff =>
      var attempts := Min(fee.attempts + 1, U32_MAX);
      if attempts >= CEILING then Some(fee.(ended := true))
      else Some(fee.(attempts := attempts, nextAt := now + BackoffSecs(attempts)))
  }

  /** The drain takes up a row that is there, not ended and due. */
  predicate Due(row: Option<Fee>, now: nat) {
    row.Some? && !row.value.ended && row.value.nextAt <= now
  }

  /** The row at `key` after one event. */
  function After(row: Option<Fee>, e: Event, key: Key): (r: Option<Fee>) {
    if e.key != key then row
    else match e
      case Defer(_, etag, now) => if row.Some? then row else Some(Fee(etag, 0, now, false))
      case Try(_, tried, now, recorded) => if row.Some? && recorded then AfterTry(row.value, tried, now) else row
      case EndByWord(_) => if row.Some? then Some(row.value.(ended := true)) else None
  }

  /** The row at `key` after a history that began with an empty ledger. */
  function Row(history: seq<Event>, key: Key): (r: Option<Fee>) {
    if history == [] then None
    else After(Row(history[..|history| - 1], key), history[|history| - 1], key)
  }

  /** Every try of the history was of a row that was due. */
  predicate Legal(history: seq<Event>) {
    forall i :: 0 <= i < |history| && history[i].Try? ==>
      Due(Row(history[..i], history[i].key), history[i].now)
  }

  lemma RowThen(history: seq<Event>, e: Event, key: Key)
    ensures Row(history + [e], key) == After(Row(history, key), e, key)
  {
    assert (history + [e])[..|history|] == history;
  }

  lemma LegalThen(history: seq<Event>, e: Event)
    requires Legal(history)
    requires e.Try? ==> Due(Row(history, e.key), e.now)
    ensures Legal(history + [e])
  {
    var all := history + [e];
    forall i | 0 <= i < |all| && all[i].Try?
      ensures Due(Row(all[..i], all[i].key), all[i].now)
    {
      assert all[..i] == history[..i];
      assert i == |history| ==> history[..i] == history;
    }
  }

  /** Before the ceiling: what every owed row keeps. */
  lemma {:induction false} OwedBelowCeiling(history: seq<Event>, key: Key)
    requires Row(history, key).Some? && !Row(history, key).value.ended
    ensures Row(history, key).value.attempts < 30
  {
    var before := history[..|history| - 1];
    if Row(before, key).Some? && !Row(before, key).value.ended { OwedBelowCeiling(before, key); }
  }

  // -------------------------------------------------------------------------
  // One life of a fee
  // -------------------------------------------------------------------------

  /** No event from `i` up to `j` puts a new row at the key: one life of a fee, or a part of one. */
  predicate OneLife(history: seq<Event>, key: Key, i: nat, j: nat)
    requires i <= j <= |history|
  {
    forall k :: i <= k < j && history[k].Defer? && history[k].key == key ==> Row(history[..k], key).Some?
  }

  predicate Counted(e: Event, key: Key) {
    e.Try? && e.key == key && e.recorded
  }

  /** The tries of the key from `i` up to `j` whose outcome the ledger took. */
  function Tries(history: seq<Event>, key: Key, i: nat, j: nat): (n: nat)
    requires i <= j <= |history|
  {
    if i == j then 0 else Tries(history, key, i, j - 1) + if Counted(history[j - 1], key) then 1 else 0
  }

  /** The wait a recorded try sets: the row's new time less the time of the try. */
  function SetsWait(e: Event, after: Option<Fee>, key: Key): (secs: int) {
    if Counted(e, key) && after.Some? && !after.value.ended then after.value.nextAt - e.now else 0
  }

  /** The seconds those tries put the fee off by. */
  function Waited(history: seq<Event>, key: Key, i: nat, j: nat): (secs: int)
    requires i <= j <= |history|
  {
    if i == j then 0
    else Waited(history, key, i, j - 1) +
         SetsWait(history[j - 1], Row(history[..j], key), key)
  }

  /** The tries a row has left. */
  function Left(row: Option<Fee>): (n: int) {
    if row.Some? && !row.value.ended then CEILING - row.value.attempts else 0
  }

  /** The waits from the given attempt up to the last below the ceiling. */
  function WaitsFrom(attempts: nat): (secs: nat)
    decreases CEILING - attempts
  {
    if attempts + 1 >= CEILING then 0 else BackoffSecs(attempts + 1) + WaitsFrom(attempts + 1)
  }

  function WaitLeft(row: Option<Fee>): (secs: nat) {
    if row.Some? && !row.value.ended then WaitsFrom(row.value.attempts) else 0
  }

  /** One recorded try uses up one of the tries left, and the wait it sets is the next of the waits left: a fee put off
      is due again just the wait of its attempts after the try, until the thirtieth ends it. */
  lemma TryUsesUp(row: Option<Fee>, e: Event, key: Key)
    requires Counted(e, key) && Due(row, e.now) && row.value.attempts < 30
    ensures var r, fee := After(row, e, key), row.value;
      && 0 <= Left(r) <= Left(row) - 1
      && (if r.Some? && !r.value.ended then r.value.nextAt - e.now else 0) + WaitLeft(r) <= WaitLeft(row)
      && match e.tried
         case Settled => r.None?
         case Ends => r == Some(fee.(ended := true))
         case PutOff =>
           if fee.attempts == 29 then r == Some(fee.(ended := true))
           else r == Some(Fee(fee.etag, fee.attempts + 1, e.now + BackoffSecs(fee.attempts + 1), false))
  {
  }

  /** An event uses up what it uses of the tries and the waits left. */
  lemma EventUsesUp(history: seq<Event>, key: Key, j: nat)
    requires Legal(history) && j < |history|
    requires history[j].Defer? && history[j].key == key ==> Row(history[..j], key).Some?
    ensures var before, after := Row(history[..j], key), Row(history[..j + 1], key);
      && (if Counted(history[j], key) then 1 else 0) + Left(after) <= Left(before)
      && SetsWait(history[j], after, key) + WaitLeft(after) <= WaitLeft(before)
  {
    var before := Row(history[..j], key);
    assert history[..j + 1][..j] == history[..j];
    if before.Some? && !before.value.ended { OwedBelowCeiling(history[..j], key); }
    if Counted(history[j], key) { TryUsesUp(before, history[j], key); }
  }

  lemma {:induction false} LifeUsesTries(history: seq<Event>, key: Key, i: nat, j: nat)
    requires Legal(history) && i <= j <= |history| && OneLife(history, key, i, j)
    ensures Tries(history, key, i, j) + Left(Row(history[..j], key)) <= Left(Row(history[..i], key))
    decreases j
  {
    if i < j {
      LifeUsesTries(history, key, i, j - 1);
      EventUsesUp(history, key, j - 1);
    }
  }

  lemma {:induction false} LifeUsesWaits(history: seq<Event>, key: Key, i: nat, j: nat)
    requires Legal(history) && i <= j <= |history| && OneLife(history, key, i, j)
    ensures Waited(history, key, i, j) + WaitLeft(Row(history[..j], key)) <= WaitLeft(Row(history[..i], key))
    decreases j
  {
    if i < j {
      LifeUsesWaits(history, key, i, j - 1);
      EventUsesUp(history, key, j - 1);
    }
  }

  lemma {:induction false} WaitsFromDay(attempts: nat)
    requires 11 <= attempts < CEILING
    ensures WaitsFrom(attempts) == (CEILING - 1 - attempts) * DAY
    decreases CEILING - attempts
  {
    if attempts + 1 < CEILING {
      BackoffIs(attempts + 1);
      WaitsFromDay(attempts + 1);
    }
  }

  /** The doubling part telescopes: 60 (2^11 - 2^a) for the attempts from `a` to the eleventh. */
  lemma {:induction false} WaitsFromDoubling(attempts: nat)
    requires attempts <= 11
    ensures WaitsFrom(attempts) == 60 * (2048 - Pow2(attempts)) + 18 * DAY
    decreases 11 - attempts
  {
    SmallPowers();
    if attempts == 11 { WaitsFromDay(11); } else {
      BackoffIs(attempts + 1);
      WaitsFromDoubling(attempts + 1);
    }
  }

  lemma LeftAtMost(row: Option<Fee>)
    requires row.Some? ==> row.value.attempts <= CEILING || row.value.ended
    ensures Left(row) <= 30 && WaitLeft(row) <= 1_678_020
  {
    if row.Some? && !row.value.ended {
      WaitsFromDoubling(0);
      WaitsShrink(0, row.value.attempts);
    }
  }

  lemma {:induction false} WaitsShrink(a: nat, b: nat)
    requires a <= b
    ensures WaitsFrom(b) <= WaitsFrom(a)
    decreases b
  {
    if a < b { WaitsShrink(a, b - 1); }
  }

  /**
   In any history and over any life of a fee: the drain's recorded tries are at most thirty and the
   waits they set sum to at most 1,678,020 seconds.
   */
  lemma LifeIsBounded(history: seq<Event>, key: Key, i: nat, j: nat)
    requires Legal(history) && i <= j <= |history|
    requires OneLife(history, key, i, j)
    ensures Tries(history, key, i, j) <= 30
    ensures Waited(history, key, i, j) <= 1_678_020
  {
    LifeUsesTries(history, key, i, j);
    LifeUsesWaits(history, key, i, j);
    var first, last := Row(history[..i], key), Row(history[..j], key);
    if first.Some? && !first.value.ended { OwedBelowCeiling(history[..i], key); }
    if last.Some? && !last.value.ended { OwedBelowCeiling(history[..j], key); }
    LeftAtMost(first);
  }

  /** The event puts a row at a key that has none: a life of a fee begins. */
  predicate Opens(history: seq<Event>, key: Key, i: nat) {
    i < |history| && history[i].Defer? && history[i].key == key && Row(history[..i], key).None?
  }

  /** A fee still open counts its recorded tries, has waited just what they set, and is not due before all of that
      has passed since it was deferred. */
  lemma {:induction false} OpenFee(history: seq<Event>, key: Key, i: nat, j: nat)
    requires Legal(history) && Opens(history, key, i) && i < j <= |history| && OneLife(history, key, i + 1, j)
    requires Row(history[..j], key).Some? && !Row(history[..j], key).value.ended
    ensures var fee, waited := Row(history[..j], key).value, Waited(history, key, i + 1, j);
      && fee.attempts == Tries(history, key, i + 1, j) <= 29
      && waited + WaitsFrom(fee.attempts) == 1_678_020
      && fee.nextAt >= history[i].now + waited
    decreases j
  {
    assert history[..j][..j - 1] == history[..j - 1];
    var before := Row(history[..j - 1], key);
    if j == i + 1 {
      WaitsFromDoubling(0);
    } else {
      StillOpen(before, history[j - 1], key);
      OpenFee(history, key, i, j - 1);
    }
  }

  /** A row open after an event was open before it or has just been put there, and waits as its try says. */
  lemma StillOpen(row: Option<Fee>, e: Event, key: Key)
    requires After(row, e, key).Some? && !After(row, e, key).value.ended
    requires e.Defer? && e.key == key ==> row.Some?
    ensures var after := After(row, e, key).value;
      && row.Some? && !row.value.ended
      && if Counted(e, key) then
           && after.attempts == row.value.attempts + 1 <= 29
           && after.nextAt == e.now + BackoffSecs(after.attempts)
           && WaitsFrom(row.value.attempts) == BackoffSecs(after.attempts) + WaitsFrom(after.attempts)
         else after == row.value
  {
  }

  /** The put-off that ends a fee, in the history, sets no wait. */
  lemma LastPutOff(history: seq<Event>, key: Key, i: nat, j: nat)
    requires i <= j < |history| && Row(history[..j], key).Some? && Row(history[..j], key).value.attempts == 29
    requires Counted(history[j], key) && history[j].tried.PutOff?
    ensures Row(history[..j + 1], key).Some? && Row(history[..j + 1], key).value.ended
    ensures Waited(history, key, i, j + 1) == Waited(history, key, i, j)
    ensures WaitsFrom(Row(history[..j], key).value.attempts) == 0
  {
    assert history[..j + 1][..j] == history[..j];
  }

  /** The thirtieth put-off of a life ends the fee, and comes no sooner than the waits of the twenty-nine before it,
      nineteen days and ten hours, after the fee was deferred. */
  lemma ThirtyPutOffs(history: seq<Event>, key: Key, i: nat, j: nat)
    requires Legal(history) && Opens(history, key, i) && i < j < |history| && OneLife(history, key, i + 1, j)
    requires Counted(history[j], key) && history[j].tried.PutOff? && Tries(history, key, i + 1, j) == 29
    ensures Row(history[..j + 1], key).Some? && Row(history[..j + 1], key).value.ended
    ensures Waited(history, key, i + 1, j + 1) == 1_678_020
    ensures history[j].now >= history[i].now + 1_678_020
  {
    OpenFee(history, key, i, j);
    LastPutOff(history, key, i + 1, j);
  }

  /** A fee put off is tried again, recorded or not, no sooner than its wait: a minute after the first try, doubled with
      each one more up to a day. */
  lemma TriesApart(history: seq<Event>, key: Key, a: nat, b: nat)
    requires Legal(history) && a < b < |history| && OneLife(history, key, a, b)
    requires Counted(history[a], key) && history[b].Try? && history[b].key == key
    ensures Due(Row(history[..a], key), history[a].now) && history[a].tried.PutOff?
    ensures history[b].now >= history[a].now + BackoffSecs(Row(history[..a], key).value.attempts + 1)
  {
    OwedBelowCeiling(history[..a], key);
    TryUsesUp(Row(history[..a], key), history[a], key);
    assert history[..a + 1][..a] == history[..a];
    DueNoSooner(history, key, a, b);
  }

  /** The row that try left, or a later one of the same life. */
  lemma {:induction false} DueNoSooner(history: seq<Event>, key: Key, a: nat, j: nat)
    requires Legal(history) && a < j <= |history| && OneLife(history, key, a, j)
    requires Counted(history[a], key)
    ensures var first, row := Row(history[..a + 1], key), Row(history[..j], key);
      row.Some? && !row.value.ended ==> first.Some? && !first.value.ended && row.value.nextAt >= first.value.nextAt
    decreases j
  {
    if a + 1 < j {
      assert history[..j][..j - 1] == history[..j - 1];
      DueNoSooner(history, key, a, j - 1);
    }
  }

  /** Thirty recorded tries leave nothing to try: the fee is settled or ended. */
  lemma CeilingEnds(history: seq<Event>, key: Key, i: nat, j: nat)
    requires Legal(history) && i <= j <= |history|
    requires OneLife(history, key, i, j) && Tries(history, key, i, j) == 30
    ensures Row(history[..j], key).None? || Row(history[..j], key).value.ended
  {
    LifeUsesTries(history, key, i, j);
    var first, last := Row(history[..i], key), Row(history[..j], key);
    if first.Some? && !first.value.ended { OwedBelowCeiling(history[..i], key); }
    if last.Some? && !last.value.ended { OwedBelowCeiling(history[..j], key); }
  }

  /** An ended row stays as it is, and the key is never tried again: no send re-opens it. */
  lemma {:induction false} EndedForGood(history: seq<Event>, key: Key, i: nat, j: nat)
    requires Legal(history) && i <= j <= |history|
    requires Row(history[..i], key).Some? && Row(history[..i], key).value.ended
    ensures Row(history[..j], key) == Row(history[..i], key)
    ensures Tries(history, key, i, j) == 0
    ensures forall k :: i <= k < j ==> !(history[k].Try? && history[k].key == key)
    decreases j
  {
    if i < j {
      EndedForGood(history, key, i, j - 1);
      assert history[..j][..j - 1] == history[..j - 1];
    }
  }

  /** A settled fee's row is gone and the key is not tried again until a send defers there anew. */
  lemma {:induction false} SettledIsOver(history: seq<Event>, key: Key, i: nat, j: nat)
    requires Legal(history) && i <= j <= |history|
    requires Row(history[..i], key).None?
    requires forall k :: i <= k < j ==> !(history[k].Defer? && history[k].key == key)
    ensures Row(history[..j], key).None?
    ensures forall k :: i <= k < j ==> !(history[k].Try? && history[k].key == key)
    decreases j
  {
    if i < j {
      SettledIsOver(history, key, i, j - 1);
      assert history[..j][..j - 1] == history[..j - 1];
    }
  }

  /**
   A send that defers is told the fee is owed.  It is owed as this payment's if and only if the ledger
   held no row at the key, or held an open one for the same upload: an ended row stays ended and a
   row for another upload keeps that upload's etag.
   */
  lemma DeferralOwesExactly(history: seq<Event>, key: Key, etag: string, now: nat)
    ensures var before := Row(history, key);
      var row := Row(history + [Defer(key, etag, now)], key);
      row.Some? && ((!row.value.ended && row.value.etag == etag)
                    <==> before.None? || (!before.value.ended && before.value.etag == etag))
      && (before.None? ==> row == Some(Fee(etag, 0, now, false)))
  {
    RowThen(history, Defer(key, etag, now), key);
  }

  /** A deferral that owes nothing: the drain ended the first one, and the send that defers there again leaves its
      ended row. */
  lemma DeferralOwesNothing(key: Key, etag: string)
    ensures var history := [Defer(key, etag, 0), Try(key, Ends, 0, true)];
      && Legal(history + [Defer(key, etag, 5)])
      && Row(history + [Defer(key, etag, 5)], key) == Some(Fee(etag, 0, 0, true))
  {
    var first, second, third := Defer(key, etag, 0), Try(key, Ends, 0, true), Defer(key, etag, 5);
    assert [] + [first] == [first] && [first] + [second] == [first, second];
    RowThen([], first, key);
    RowThen([first], second, key);
    RowThen([first, second], third, key);
    LegalThen([], first);
    LegalThen([first], second);
    LegalThen([first, second], third);
  }
}
