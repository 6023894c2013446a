/**
 The reclaim of one key against everything else that touches it, step by step: claim, look, stamp,
 look, stamp, delete, unclaim, with sends that name the key, releases of names and uploads to it
 between any two of those steps.  One reclaim of a key runs at a time.
 */
module ReclaimProtocol {
  import opened Prelude

  /** Where a name of the key is written: a message row, a deferred fee, an owed announcement.  A look
      reads them in this order, and stops at the first that names the key. */
  datatype Source = Rows | Fees | Announcements

  /** A live name, and the step it was written at. */
  datatype Name = Name(source: Source, written: nat)

  /** What the reclaim does next. */
  datatype Pc =
    | Idle
    | Look(second: bool, source: Source)
    | StampOnce
    | StampAgain
    | Delete
    | Unclaim

  /**
   `clock` numbers the steps, `now` is the wall clock in seconds.  Of the running reclaim: the step it
   claimed at, the stamp it looked at, the steps its second look read each source at, the step of
   its last stamp, and whether it has deleted.
   */
  datatype State = State(
    clock: nat, now: nat, names: map<nat, Name>, stored: Option<nat>, uploaded: nat, claim: Option<nat>,
    pc: Pc, claimedAt: nat, looked: nat, readAt: map<Source, nat>, stampedAt: nat, deleted: bool)

  /** `LostClaim` is a claim that was written and answered as an error: its reclaim goes no further, and clears
      nothing. */
  datatype Event =
    | WriteName(id: nat, source: Source)
    | ReleaseName(id: nat)
    | Upload(stamp: nat)
    | Tick(now: nat)
    | Claim
    | LostClaim
    | Advance
    | StoreFails
    | LetGo(forgotten: bool)

  /** The age past which a claim counts for nothing. */
  const CLAIM_SECS: nat := 300

  /** What a send reads when it asks, after its row, whether a reclaim holds the key. */
  predicate ClaimSeen(s: State) {
    s.claim.Some? && s.claim.value + CLAIM_SECS >= s.now
  }

  predicate NamedBy(s: State, source: Source) {
    exists id :: id in s.names && s.names[id].source == source
  }

  function AfterSource(second: bool, source: Source): (pc: Pc) {
    match source
    case Rows => Look(second, Fees)
    case Fees => Look(second, Announcements)
    case Announcements => if second then StampAgain else StampOnce
  }

  /** One step of the reclaim itself. */
  function Reclaimed(s: State): (r: State)
    requires !s.pc.Idle? && !s.pc.Unclaim?
  {
    match s.pc
    case Look(second, source) =>
      if NamedBy(s, source) then s.(pc := Unclaim)
      else s.(pc := AfterSource(second, source), readAt := if second then s.readAt[source := s.clock] else s.readAt)
    case StampOnce =>
      if s.stored.None? then s.(pc := Unclaim) else s.(pc := Look(true, Rows), looked := s.stored.value)
    case StampAgain =>
      if s.stored == Some(s.looked) then s.(pc := Delete, stampedAt := s.clock) else s.(pc := Unclaim)
    case Delete =>
      s.(pc := Unclaim, stored := None, deleted := true)
  }

  function Advanced(s: State): (r: State)
    requires !s.pc.Idle? && !s.pc.Unclaim?
  {
    Reclaimed(s).(clock := s.clock + 1)
  }

  /** One step of the whole. */
  predicate Step(s: State, e: Event, s': State) {
    match e
    case WriteName(id, source) =>
      id !in s.names && s' == s.(names := s.names[id := Name(source, s.clock)], clock := s.clock + 1)
    case ReleaseName(id) => s' == s.(names := s.names - {id}, clock := s.clock + 1)
    case Upload(stamp) => s' == s.(stored := Some(stamp), uploaded := s.clock, clock := s.clock + 1)
    case Tick(now) => s.now <= now && s' == s.(now := now, clock := s.clock + 1)
    case Claim =>
      s.pc.Idle? && s' == s.(claim := Some(s.now), claimedAt := s.clock, readAt := map[], deleted := false,
                              pc := Look(false, Rows), clock := s.clock + 1)
    case LostClaim => s.pc.Idle? && s' == s.(claim := Some(s.now), clock := s.clock + 1)
    case Advance => !s.pc.Idle? && !s.pc.Unclaim? && s' == Advanced(s)
    case StoreFails => !s.pc.Idle? && !s.pc.Unclaim? && s' == s.(pc := Unclaim, clock := s.clock + 1)
    case LetGo(forgotten) =>
      s.pc.Unclaim? && s' == s.(pc := Idle, claim := if forgotten then None else s.claim, clock := s.clock + 1)
  }

  predicate Initial(s: State) {
    s.pc.Idle? && s.claim.None? && s.names == map[] && s.readAt == map[] && !s.deleted
  }

  /** A run: states with the events between them. */
  predicate RunOf(states: seq<State>, events: seq<Event>) {
    && |states| == |events| + 1 && Initial(states[0])
    && forall i :: 0 <= i < |events| ==> Step(states[i], events[i], states[i + 1])
  }

  // -------------------------------------------------------------------------
  // What every step keeps
  // -------------------------------------------------------------------------

  /** The second look has read the source. */
  predicate ReadTwice(s: State, source: Source) {
    source in s.readAt
  }

  /** Every live name of a source the second look has read was written after that read. */
  ghost predicate NamedSince(s: State, source: Source) {
    source in s.readAt ==>
      && s.claimedAt < s.readAt[source] < s.clock
      && forall id :: id in s.names && s.names[id].source == source ==> s.readAt[source] < s.names[id].written
  }

  ghost predicate Inv(s: State) {
    && (forall id :: id in s.names ==> s.names[id].written < s.clock)
    && (!s.pc.Idle? ==> s.claim.Some? && s.claim.value <= s.now && s.claimedAt < s.clock)
    && (s.pc.Idle? ==> s.claim.Some? ==> s.claim.value <= s.now)
    && (forall source :: NamedSince(s, source))
    && (s.pc.Look? && s.pc.second && !s.pc.source.Rows? ==> ReadTwice(s, Rows))
    && (s.pc.Look? && s.pc.second && s.pc.source.Announcements? ==> ReadTwice(s, Fees))
    && (s.pc.StampAgain? || s.pc.Delete? ==> ReadTwice(s, Rows) && ReadTwice(s, Fees) && ReadTwice(s, Announcements))
    && (s.pc.Delete? ==> s.stampedAt < s.clock && (s.stored == Some(s.looked) || s.stampedAt < s.uploaded))
  }

  /** A second look that finds no name of its source has only later ones to answer for. */
  lemma LookKeeps(s: State, source: Source)
    requires Inv(s) && s.pc == Look(true, source) && !NamedBy(s, source)
    ensures Inv(Advanced(s))
  {
    var s' := Advanced(s);
    forall other ensures NamedSince(s', other) {
      assert NamedSince(s, other);
    }
  }

  /** A first look, or one that finds a name: nothing new is known of a source. */
  lemma EarlyLookKeeps(s: State)
    requires Inv(s) && s.pc.Look? && (s.pc.second ==> NamedBy(s, s.pc.source))
    ensures Inv(Advanced(s))
  {
    forall source ensures NamedSince(Advanced(s), source) {
      assert NamedSince(s, source);
    }
  }

  /** A stamp or the delete. */
  lemma StampKeeps(s: State)
    requires Inv(s) && (s.pc.StampOnce? || s.pc.StampAgain? || s.pc.Delete?)
    ensures Inv(Advanced(s))
  {
    forall source ensures NamedSince(Advanced(s), source) {
      assert NamedSince(s, source);
    }
  }

  /** What the reclaim's own steps keep. */
  lemma AdvanceKeeps(s: State)
    requires Inv(s) && !s.pc.Idle? && !s.pc.Unclaim?
    ensures Inv(Advanced(s))
  {
    if s.pc.Look? && s.pc.second && !NamedBy(s, s.pc.source) {
      LookKeeps(s, s.pc.source);
    } else if s.pc.Look? {
      EarlyLookKeeps(s);
    } else {
      StampKeeps(s);
    }
  }

  lemma StepKeeps(s: State, e: Event, s': State)
    requires Inv(s) && Step(s, e, s')
    ensures Inv(s')
  {
    if e.Advance? {
      AdvanceKeeps(s);
    } else {
      forall source ensures NamedSince(s', source) {
        assert NamedSince(s, source);
      }
    }
  }

  lemma {:induction false} AlwaysInv(states: seq<State>, events: seq<Event>, k: nat)
    requires RunOf(states, events) && k < |states|
    ensures Inv(states[k])
  {
    if k > 0 {
      AlwaysInv(states, events, k - 1);
      StepKeeps(states[k - 1], events[k - 1], states[k]);
    }
  }

  // -------------------------------------------------------------------------
  // The three promises
  // -------------------------------------------------------------------------

  /**
   Whenever the reclaim deletes, in any run: each name it takes the object from was written after the
   second look read its source, with the claim already held; and bytes other than those stamped
   were uploaded after the last stamp.
   */
  lemma DeletePromises(states: seq<State>, events: seq<Event>, k: nat, id: nat)
    requires RunOf(states, events) && k < |events|
    requires states[k].pc.Delete? && events[k].Advance?
    ensures var s := states[k];
            && (id in s.names ==>
                  && s.names[id].source in s.readAt
                  && s.claimedAt < s.readAt[s.names[id].source] < s.names[id].written)
            && (s.stored != Some(s.looked) ==> s.stampedAt < s.uploaded)
  {
    AlwaysInv(states, events, k);
    var s := states[k];
    if id in s.names {
      assert NamedSince(s, s.names[id].source);
      match s.names[id].source
      case Rows =>
      case Fees =>
      case Announcements =>
    }
  }

  /** A claim is written: of a reclaim that goes on, or of one that ends there. */
  predicate Claims(e: Event) {
    e.Claim? || e.LostClaim?
  }

  /** A claim was written at `c`, and no other after it and before `k`. */
  predicate OneClaim(events: seq<Event>, c: nat, k: nat) {
    c < k <= |events| && Claims(events[c]) && forall i :: c < i < k ==> !Claims(events[i])
  }

  /** The claim written at `c` was not cleared by `k`: no reclaim had let go, or its unclaim failed. */
  predicate Uncleared(events: seq<Event>, c: nat, k: nat) {
    c < k <= |events| && forall i :: c <= i < k ==> events[i] != LetGo(true)
  }

  /** What a run has made of the claim taken at `c` until the next one is made. */
  lemma {:induction false} ClaimIs(states: seq<State>, events: seq<Event>, c: nat, k: nat)
    requires RunOf(states, events) && OneClaim(events, c, k)
    ensures states[k].claim == if Uncleared(events, c, k) then Some(states[c].now) else None
  {
    assert Step(states[k - 1], events[k - 1], states[k]);
    if k > c + 1 {
      ClaimIs(states, events, c, k - 1);
    }
  }

  /** A send that asks between one claim and the next sees it if and only if the claim has not been cleared and
      is five minutes old or less: also a claim whose reclaim ended when it was written. */
  lemma SeenExactly(states: seq<State>, events: seq<Event>, c: nat, k: nat)
    requires RunOf(states, events) && OneClaim(events, c, k)
    ensures ClaimSeen(states[k]) <==> Uncleared(events, c, k) && states[k].now <= states[c].now + 300
  {
    ClaimIs(states, events, c, k);
  }

  /** A claim that was written and answered as an error is cleared by nobody: until the next claim it is seen just
      while it is five minutes old or less, with no reclaim under way. */
  lemma {:induction false} LostClaimStays(states: seq<State>, events: seq<Event>, c: nat, k: nat)
    requires RunOf(states, events) && OneClaim(events, c, k) && events[c].LostClaim?
    ensures states[k].pc.Idle? && Uncleared(events, c, k)
    ensures ClaimSeen(states[k]) <==> states[k].now <= states[c].now + 300
  {
    assert Step(states[k - 1], events[k - 1], states[k]);
    if k > c + 1 {
      LostClaimStays(states, events, c, k - 1);
    }
    SeenExactly(states, events, c, k);
  }

  /** A reclaim under way was begun by a claim, with no other claim and no let-go since. */
  lemma {:induction false} ClaimOf(states: seq<State>, events: seq<Event>, d: nat) returns (c: nat)
    requires RunOf(states, events) && d < |states| && !states[d].pc.Idle?
    ensures c < d && events[c].Claim? && OneClaim(events, c, d) && states[c].clock == states[d].claimedAt
    ensures forall i :: c <= i < d ==> !events[i].LetGo?
  {
    assert Step(states[d - 1], events[d - 1], states[d]);
    if events[d - 1].Claim? {
      c := d - 1;
    } else {
      c := ClaimOf(states, events, d - 1);
    }
  }

  /** What a send that asks at `k` sees of the claim taken at `c`. */
  predicate AsksAt(states: seq<State>, events: seq<Event>, c: nat, k: nat)
    requires |states| == |events| + 1
  {
    OneClaim(events, c, k) ==>
      (ClaimSeen(states[k]) <==> Uncleared(events, c, k) && states[k].now <= states[c].now + 300)
  }

  /**
   A name that loses its object, in any run: it was written after the second look read its source, with the
   claim of that very reclaim already held; and until another reclaim claims the key, whoever asks
   sees that claim if and only if it has not been cleared and is five minutes old or less.
   */
  lemma LostNameSees(states: seq<State>, events: seq<Event>, d: nat, id: nat) returns (c: nat)
    requires RunOf(states, events) && d < |events|
    requires states[d].pc.Delete? && events[d].Advance? && id in states[d].names
    ensures c < d && events[c].Claim? && OneClaim(events, c, d) && Uncleared(events, c, d)
    ensures states[d].names[id].source in states[d].readAt
    ensures states[c].clock < states[d].readAt[states[d].names[id].source] < states[d].names[id].written
    ensures forall k: nat :: AsksAt(states, events, c, k)
  {
    c := ClaimOf(states, events, d);
    DeletePromises(states, events, d, id);
    forall k: nat ensures AsksAt(states, events, c, k) {
      if OneClaim(events, c, k) { SeenExactly(states, events, c, k); }
    }
  }

  /** A run with one step more. */
  lemma Then(states: seq<State>, events: seq<Event>, e: Event, s: State)
    returns (states': seq<State>, events': seq<Event>)
    requires RunOf(states, events) && Step(states[|states| - 1], e, s)
    ensures RunOf(states', events') && states' == states + [s] && events' == events + [e]
  {
    states', events' := states + [s], events + [e];
  }

  /** A run with three looks more, none of which finds a name. */
  lemma ThenLooks(states: seq<State>, events: seq<Event>, second: bool)
    returns (states': seq<State>, events': seq<Event>)
    requires RunOf(states, events)
    requires var s := states[|states| - 1]; s.pc == Look(second, Rows) && s.names == map[] && s.readAt == map[]
    ensures RunOf(states', events')
    ensures var s, c := states[|states| - 1], states[|states| - 1].clock;
            states'[|states'| - 1] == s.(pc := if second then StampAgain else StampOnce, clock := c + 3,
              readAt := if second then map[Rows := c, Fees := c + 1, Announcements := c + 2] else map[])
  {
    var s := states[|states| - 1];
    states', events' := Then(states, events, Advance, Advanced(s));
    states', events' := Then(states', events', Advance, Advanced(Advanced(s)));
    states', events' := Then(states', events', Advance, Advanced(Advanced(Advanced(s))));
  }

  /** A run that stands at its delete: nothing named the key at either look. */
  lemma ToTheDelete() returns (states: seq<State>, events: seq<Event>)
    ensures RunOf(states, events)
    ensures states[|states| - 1].pc.Delete? && states[|states| - 1].names == map[]
  {
    var s0 := State(1, 0, map[], Some(5), 0, None, Idle, 0, 0, map[], 0, false);
    states, events := Then([s0], [], Claim, s0.(claim := Some(0), claimedAt := 1, pc := Look(false, Rows), clock := 2));
    states, events := ThenLooks(states, events, false);
    states, events := Then(states, events, Advance, Advanced(states[|states| - 1]));
    states, events := ThenLooks(states, events, true);
    states, events := Then(states, events, Advance, Advanced(states[|states| - 1]));
  }

  /**
   Once the claim is cleared nobody sees it: a send that asks then finds no claim, though it named the
   key before the delete.
   */
  lemma NeitherSeesTheOther() returns (states: seq<State>, events: seq<Event>, d: nat)
    ensures RunOf(states, events)
    ensures d < |events| && states[d].pc.Delete? && events[d].Advance? && 7 in states[d].names
    ensures var last := states[|states| - 1]; 7 in last.names && last.stored.None? && !ClaimSeen(last)
  {
    states, events := ToTheDelete();
    var s := states[|states| - 1];
    var named := s.(names := map[7 := Name(Rows, s.clock)], clock := s.clock + 1);
    states, events := Then(states, events, WriteName(7, Rows), named);
    d := |events|;
    states, events := Then(states, events, Advance, Advanced(named));
    var cleared := Advanced(named).(pc := Idle, claim := None, clock := named.clock + 2);
    states, events := Then(states, events, LetGo(true), cleared);
  }
}
