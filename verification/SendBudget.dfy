/**
 An identity's budget of sends and of unjudged bytes in fixed windows: every send is added to its window and
 refused when the window then holds more than the budget; closed windows are swept at any time.
 */
module SendBudget {
  import opened Prelude

  type Identity = string

  datatype Budget = Budget(windowSecs: nat, sends: nat, bytes: nat)

  datatype Held = Held(sends: nat, bytes: nat)

  /** The windows kept, by identity and start. */
  type Windows = map<(Identity, nat), Held>

  /** A send, which the store may fail to charge (`landed` says whether the charge was taken), or a sweep. */
  datatype Step =
    | Send(identity: Identity, now: nat, bytes: nat, answered: bool, landed: bool)
    | Sweep(now: nat, landed: bool)

  // -------------------------------------------------------------------------
  // The windows of a length
  // -------------------------------------------------------------------------

  /** The start of the window of `secs` seconds that `now` falls in. */
  function WindowOf(secs: nat, now: nat): (start: nat)
    requires secs > 0
  {
    assert now % secs <= now by { SlackAtMost(now, secs); }
    now - now % secs
  }

  lemma SlackAtMost(now: nat, secs: nat)
    requires secs > 0
    ensures now % secs <= now && now == secs * (now / secs) + now % secs && 0 <= now / secs
  {
  }

  lemma Times(a: nat, b: nat, secs: nat)
    requires a < b
    ensures secs * a + secs <= secs * b
  {
    assert secs * b == secs * (a + 1) + secs * (b - a - 1);
  }

  /** The quotient says which window a time is in. */
  lemma WindowIs(secs: nat, now: nat)
    requires secs > 0
    ensures 0 <= now / secs && WindowOf(secs, now) == secs * (now / secs)
    ensures WindowOf(secs, now) <= now < WindowOf(secs, now) + secs
  {
    SlackAtMost(now, secs);
  }

  /** A time is in exactly one window: the one that starts at `WindowOf`. */
  lemma InWindow(secs: nat, q: nat, now: nat)
    requires secs > 0
    ensures WindowOf(secs, now) == secs * q <==> secs * q <= now < secs * q + secs
  {
    WindowIs(secs, now);
    var p := now / secs;
    if p < q { Times(p, q, secs); } else if q < p { Times(q, p, secs); }
  }

  /** Windows open in the order of their times, a later one at least a window's length later. */
  lemma WindowsInOrder(secs: nat, early: nat, late: nat)
    requires secs > 0 && early <= late
    ensures WindowOf(secs, early) == WindowOf(secs, late) || WindowOf(secs, early) + secs <= WindowOf(secs, late)
  {
    WindowIs(secs, early);
    WindowIs(secs, late);
    var p, q := early / secs, late / secs;
    if p < q { Times(p, q, secs); } else if q < p { Times(q, p, secs); }
  }

  // -------------------------------------------------------------------------
  // What a step does
  // -------------------------------------------------------------------------

  /** What the window of a send holds after it. */
  function HeldAfter(secs: nat, windows: Windows, identity: Identity, now: nat, bytes: nat): (h: Held)
    requires secs > 0
  {
    var at := (identity, WindowOf(secs, now));
    if at in windows then Held(windows[at].sends + 1, windows[at].bytes + bytes) else Held(1, bytes)
  }

  function WindowsAfter(secs: nat, windows: Windows, s: Step): (r: Windows)
    requires secs > 0
  {
    match s
    case Send(identity, now, bytes, answered, landed) =>
      if !answered && !landed then windows
      else windows[(identity, WindowOf(secs, now)) := HeldAfter(secs, windows, identity, now, bytes)]
    case Sweep(now, landed) =>
      if landed then map at | at in windows && at.1 >= WindowOf(secs, now) :: windows[at] else windows
  }

  /** A charged send is accepted when its window then holds no more than the budget. */
  predicate Fits(b: Budget, h: Held) {
    h.sends <= b.sends && h.bytes <= b.bytes
  }

  /** The table after a run that began empty. */
  function TableAfter(secs: nat, steps: seq<Step>): (r: Windows)
    requires secs > 0
  {
    if steps == [] then map[] else WindowsAfter(secs, TableAfter(secs, steps[..|steps| - 1]), steps[|steps| - 1])
  }

  /** The `k`-th step is a send the store charged and the relay accepted. */
  predicate Accepted(b: Budget, steps: seq<Step>, k: nat)
    requires b.windowSecs > 0 && k < |steps|
  {
    var s := steps[k];
    && s.Send? && s.answered
    && Fits(b, HeldAfter(b.windowSecs, TableAfter(b.windowSecs, steps[..k]), s.identity, s.now, s.bytes))
  }

  lemma StepThen(b: Budget, steps: seq<Step>, s: Step)
    requires b.windowSecs > 0
    ensures (steps + [s])[..|steps|] == steps
    ensures TableAfter(b.windowSecs, steps + [s]) == WindowsAfter(b.windowSecs, TableAfter(b.windowSecs, steps), s)
    ensures Accepted(b, steps + [s], |steps|) <==>
      && s.Send? && s.answered
      && Fits(b, HeldAfter(b.windowSecs, TableAfter(b.windowSecs, steps), s.identity, s.now, s.bytes))
  {
    assert (steps + [s])[..|steps|] == steps;
  }

  // -------------------------------------------------------------------------
  // The store
  // -------------------------------------------------------------------------

  class Store {
    const budget: Budget
    var windows: Windows
    ghost var steps: seq<Step>

    ghost predicate Valid()
      reads this
    {
      budget.windowSecs > 0 && windows == TableAfter(budget.windowSecs, steps)
    }

    constructor (budget: Budget)
      requires budget.windowSecs > 0
      ensures Valid() && steps == [] && this.budget == budget
    {
      this.budget := budget;
      windows := map[];
      steps := [];
    }

    /** Charge a send and refuse it when its window is spent; a store that cannot answer refuses nothing. */
    method Charge(identity: Identity, now: nat, bytes: nat) returns (ok: bool)
      requires Valid()
      modifies this
      ensures Valid() && |steps| == |old(steps)| + 1 && steps[..|old(steps)|] == old(steps)
      ensures var s := steps[|old(steps)|];
        && s.Send? && s.identity == identity && s.now == now && s.bytes == bytes
        && (ok <==> s.answered ==> Accepted(budget, steps, |old(steps)|))
        && (s.answered ==>
              var at := (identity, WindowOf(budget.windowSecs, now));
              && at in windows && (ok <==> windows[at].sends <= budget.sends && windows[at].bytes <= budget.bytes)
              && windows[at] == if at in old(windows)
                                then Held(old(windows)[at].sends + 1, old(windows)[at].bytes + bytes)
                                else Held(1, bytes))
        && (!s.answered ==> ok)
        && (forall at :: at != (identity, WindowOf(budget.windowSecs, now)) ==>
              (at in windows <==> at in old(windows)) && (at in windows ==> windows[at] == old(windows)[at]))
    {
      var answered: bool, landed: bool := *, *;
      var held := HeldAfter(budget.windowSecs, windows, identity, now, bytes);
      StepThen(budget, steps, Send(identity, now, bytes, answered, landed));
      if answered || landed { windows := windows[(identity, WindowOf(budget.windowSecs, now)) := held]; }
      steps := steps + [Send(identity, now, bytes, answered, landed)];
      ok := !answered || (held.sends <= budget.sends && held.bytes <= budget.bytes);
    }

    /** The windows that closed before `now` go. */
    method ForgetClosed(now: nat)
      requires Valid()
      modifies this
      ensures Valid() && exists landed :: steps == old(steps) + [Sweep(now, landed)]
      ensures forall at :: at in windows ==> at in old(windows) && windows[at] == old(windows)[at]
      ensures forall at :: at in old(windows) && at !in windows ==> at.1 < WindowOf(budget.windowSecs, now)
      ensures windows == old(windows) || forall at :: at in windows ==> WindowOf(budget.windowSecs, now) <= at.1
    {
      var landed: bool := *;
      StepThen(budget, steps, Sweep(now, landed));
      if landed { windows := map at | at in windows && at.1 >= WindowOf(budget.windowSecs, now) :: windows[at]; }
      steps := steps + [Sweep(now, landed)];
    }
  }

  // -------------------------------------------------------------------------
  // What a window holds
  // -------------------------------------------------------------------------

  /** A send of the identity into the window that starts at `start`. */
  predicate Into(secs: nat, s: Step, identity: Identity, start: nat)
    requires secs > 0
  {
    s.Send? && s.identity == identity && WindowOf(secs, s.now) == start
  }

  /** One the store charged and said so. */
  predicate Charges(secs: nat, s: Step, identity: Identity, start: nat)
    requires secs > 0
  {
    Into(secs, s, identity, start) && s.answered
  }

  /** A sweep that drops the window. */
  predicate Closes(secs: nat, s: Step, start: nat)
    requires secs > 0
  {
    s.Sweep? && s.landed && start < WindowOf(secs, s.now)
  }

  function Add(h: Held, bytes: nat): (r: Held) {
    Held(h.sends + 1, h.bytes + bytes)
  }

  /** The accepted sends into the window, and their bytes. */
  function AcceptedAt(b: Budget, steps: seq<Step>, identity: Identity, start: nat): (h: Held)
    requires b.windowSecs > 0
  {
    if steps == [] then Held(0, 0)
    else
      var n := |steps| - 1;
      var before := AcceptedAt(b, steps[..n], identity, start);
      if Accepted(b, steps, n) && Into(b.windowSecs, steps[n], identity, start) then Add(before, steps[n].bytes)
      else before
  }

  /** A send into the window was charged and a sweep dropped the window after it. */
  predicate Swept(secs: nat, steps: seq<Step>, identity: Identity, start: nat)
    requires secs > 0
  {
    exists i, s :: 0 <= i < s < |steps| && Charges(secs, steps[i], identity, start) && Closes(secs, steps[s], start)
  }

  /** No window is counted anew: no sweep drops it between two sends charged to it. */
  predicate NeverReset(secs: nat, steps: seq<Step>, identity: Identity, start: nat)
    requires secs > 0
  {
    forall j :: 0 <= j < |steps| && Charges(secs, steps[j], identity, start) ==>
        !Swept(secs, steps[..j], identity, start)
  }

  /** What a run has accepted in a window, against what the table holds for it. */
  predicate WindowKept(b: Budget, steps: seq<Step>, identity: Identity, start: nat)
    requires b.windowSecs > 0
  {
    var accepted := AcceptedAt(b, steps, identity, start);
    var table := TableAfter(b.windowSecs, steps);
    && Fits(b, accepted)
    && (Swept(b.windowSecs, steps, identity, start)
        || (if (identity, start) in table
            then accepted.sends <= table[(identity, start)].sends && accepted.bytes <= table[(identity, start)].bytes
            else accepted == Held(0, 0)))
  }

  lemma {:induction false} AcceptedCharges(b: Budget, steps: seq<Step>, identity: Identity, start: nat)
    requires b.windowSecs > 0 && AcceptedAt(b, steps, identity, start) != Held(0, 0)
    ensures exists i :: 0 <= i < |steps| && Charges(b.windowSecs, steps[i], identity, start)
  {
    var n := |steps| - 1;
    if !Charges(b.windowSecs, steps[n], identity, start) {
      AcceptedCharges(b, steps[..n], identity, start);
      var i :| 0 <= i < n && Charges(b.windowSecs, steps[..n][i], identity, start);
      assert steps[i] == steps[..n][i];
    }
  }

  lemma SweptStays(secs: nat, steps: seq<Step>, n: nat, identity: Identity, start: nat)
    requires secs > 0 && n <= |steps| && Swept(secs, steps[..n], identity, start)
    ensures Swept(secs, steps, identity, start)
  {
    var i, s :| 0 <= i < s < n && Charges(secs, steps[..n][i], identity, start) && Closes(secs, steps[..n][s], start);
    assert steps[i] == steps[..n][i] && steps[s] == steps[..n][s];
  }

  lemma SweepAfter(secs: nat, steps: seq<Step>, i: nat, identity: Identity, start: nat)
    requires secs > 0 && i < |steps| - 1
    requires Charges(secs, steps[i], identity, start) && Closes(secs, steps[|steps| - 1], start)
    ensures Swept(secs, steps, identity, start)
  {
  }

  lemma NeverResetBefore(secs: nat, steps: seq<Step>, n: nat, identity: Identity, start: nat)
    requires secs > 0 && n <= |steps| && NeverReset(secs, steps, identity, start)
    ensures NeverReset(secs, steps[..n], identity, start)
  {
    forall j | 0 <= j < n && Charges(secs, steps[..n][j], identity, start)
        ensures !Swept(secs, steps[..n][..j], identity, start) {
      assert steps[..n][..j] == steps[..j];
    }
  }

  /** One more step keeps it. */
  lemma KeptThen(b: Budget, before: seq<Step>, s: Step, identity: Identity, start: nat)
    requires b.windowSecs > 0 && WindowKept(b, before, identity, start)
    requires Charges(b.windowSecs, s, identity, start) ==> !Swept(b.windowSecs, before, identity, start)
    ensures WindowKept(b, before + [s], identity, start)
  {
    var steps := before + [s];
    StepThen(b, before, s);
    if Swept(b.windowSecs, before, identity, start) {
      SweptStays(b.windowSecs, steps, |before|, identity, start);
    } else if Closes(b.windowSecs, s, start) && AcceptedAt(b, before, identity, start) != Held(0, 0) {
      AcceptedCharges(b, before, identity, start);
      var i :| 0 <= i < |before| && Charges(b.windowSecs, before[i], identity, start);
      assert steps[i] == before[i];
      SweepAfter(b.windowSecs, steps, i, identity, start);
    }
  }

  /** Whatever the clock does, in every run that never counts the window anew, the sends the store charged and the
      relay accepted never exceed its budget. */
  lemma {:induction false} WindowWithinBudget(b: Budget, steps: seq<Step>, identity: Identity, start: nat)
    requires b.windowSecs > 0 && NeverReset(b.windowSecs, steps, identity, start)
    ensures WindowKept(b, steps, identity, start)
  {
    if steps != [] {
      var n := |steps| - 1;
      NeverResetBefore(b.windowSecs, steps, n, identity, start);
      WindowWithinBudget(b, steps[..n], identity, start);
      assert steps == steps[..n] + [steps[n]];
      KeptThen(b, steps[..n], steps[n], identity, start);
    }
  }

  /** The clock does not go back. */
  predicate Forward(steps: seq<Step>) {
    forall i, j :: 0 <= i < j < |steps| ==> steps[i].now <= steps[j].now
  }

  /** A clock that does not go back never counts a window anew. */
  lemma ForwardNeverResets(secs: nat, steps: seq<Step>, identity: Identity, start: nat)
    requires secs > 0 && Forward(steps)
    ensures NeverReset(secs, steps, identity, start)
  {
    forall j | 0 <= j < |steps| && Charges(secs, steps[j], identity, start)
        ensures !Swept(secs, steps[..j], identity, start) {
      forall s | 0 <= s < j ensures !Closes(secs, steps[..j][s], start) {
        assert steps[..j][s] == steps[s];
        WindowsInOrder(secs, steps[s].now, steps[j].now);
      }
    }
  }

  // -------------------------------------------------------------------------
  // And only then
  // -------------------------------------------------------------------------

  /** All that was charged to the window. */
  function Charged(secs: nat, steps: seq<Step>, identity: Identity, start: nat): (h: Held)
    requires secs > 0
  {
    if steps == [] then Held(0, 0)
    else
      var n := |steps| - 1;
      var before := Charged(secs, steps[..n], identity, start);
      if Charges(secs, steps[n], identity, start) then Add(before, steps[n].bytes) else before
  }

  /** The store answered every charge to the window that it took. */
  predicate Answered(secs: nat, steps: seq<Step>, identity: Identity, start: nat)
    requires secs > 0
  {
    forall k :: 0 <= k < |steps| && Into(secs, steps[k], identity, start) && steps[k].landed ==> steps[k].answered
  }

  /** What the table holds for the window. */
  function HeldIn(secs: nat, steps: seq<Step>, identity: Identity, start: nat): (h: Held)
    requires secs > 0
  {
    var table := TableAfter(secs, steps);
    if (identity, start) in table then table[(identity, start)] else Held(0, 0)
  }

  lemma HeldThen(secs: nat, before: seq<Step>, s: Step, identity: Identity, start: nat)
    requires secs > 0 && (Into(secs, s, identity, start) && s.landed ==> s.answered)
    ensures HeldIn(secs, before + [s], identity, start) ==
      if Charges(secs, s, identity, start) then Add(HeldIn(secs, before, identity, start), s.bytes)
      else if Closes(secs, s, start) then Held(0, 0)
      else HeldIn(secs, before, identity, start)
    ensures Charged(secs, before + [s], identity, start) ==
      if Charges(secs, s, identity, start) then Add(Charged(secs, before, identity, start), s.bytes)
      else Charged(secs, before, identity, start)
  {
    assert (before + [s])[..|before|] == before;
  }

  /** The table never holds more than was charged; after a sweep dropped the window, no more than was charged since. */
  lemma {:induction false} HeldWithinCharged(secs: nat, steps: seq<Step>, identity: Identity, start: nat, s: nat)
    requires secs > 0 && Answered(secs, steps, identity, start) && s <= |steps|
    requires s < |steps| ==> Closes(secs, steps[s], start)
    ensures var held, charged := HeldIn(secs, steps, identity, start), Charged(secs, steps, identity, start);
      && held.sends <= charged.sends && held.bytes <= charged.bytes
      && (s < |steps| ==> held.sends + Charged(secs, steps[..s], identity, start).sends <= charged.sends)
    decreases |steps|
  {
    if steps != [] {
      var n := |steps| - 1;
      assert steps == steps[..n] + [steps[n]];
      assert forall k :: 0 <= k < n ==> steps[..n][k] == steps[k];
      assert s < n ==> steps[..n][..s] == steps[..s];
      assert s == n ==> steps[..n] == steps[..s];
      HeldWithinCharged(secs, steps[..n], identity, start, if s < n then s else n);
      HeldThen(secs, steps[..n], steps[n], identity, start);
    }
  }

  lemma {:induction false} ChargedGrows(secs: nat, steps: seq<Step>, n: nat, identity: Identity, start: nat)
    requires secs > 0 && n <= |steps|
    ensures var part, all := Charged(secs, steps[..n], identity, start), Charged(secs, steps, identity, start);
      && part.sends <= all.sends && part.bytes <= all.bytes
      && ((exists j :: n <= j < |steps| && Charges(secs, steps[j], identity, start)) ==> part.sends < all.sends)
    decreases |steps|
  {
    if n < |steps| {
      ChargedGrows(secs, steps[..|steps| - 1], n, identity, start);
      assert steps[..|steps| - 1][..n] == steps[..n];
      assert forall k :: 0 <= k < |steps| - 1 ==> steps[..|steps| - 1][k] == steps[k];
    } else {
      assert steps[..n] == steps;
    }
  }

  lemma {:induction false} AllAccepted(b: Budget, steps: seq<Step>, identity: Identity, start: nat)
    requires b.windowSecs > 0
    requires forall k :: 0 <= k < |steps| && Charges(b.windowSecs, steps[k], identity, start) ==> Accepted(b, steps, k)
    ensures AcceptedAt(b, steps, identity, start) == Charged(b.windowSecs, steps, identity, start)
  {
    if steps != [] {
      var n := |steps| - 1;
      forall k | 0 <= k < n && Charges(b.windowSecs, steps[..n][k], identity, start)
          ensures Accepted(b, steps[..n], k) {
        assert steps[..n][k] == steps[k] && steps[..n][..k] == steps[..k];
      }
      AllAccepted(b, steps[..n], identity, start);
    }
  }

  /** In a run that counts the window anew no send into it finds it holding all that the run charges to it. */
  lemma HoldsLess(secs: nat, steps: seq<Step>, identity: Identity, start: nat, i: nat, s: nat, j: nat, k: nat)
    requires secs > 0 && Answered(secs, steps, identity, start) && i < s < j < |steps| && k < |steps|
    requires Charges(secs, steps[i], identity, start) && Closes(secs, steps[s], start)
    requires Charges(secs, steps[j], identity, start)
    requires Charges(secs, steps[k], identity, start)
    ensures var held, all := HeldIn(secs, steps[..k + 1], identity, start), Charged(secs, steps, identity, start);
      held.sends < all.sends && held.bytes <= all.bytes
  {
    var part := steps[..k + 1];
    assert forall x :: 0 <= x <= k ==> part[x] == steps[x];
    HeldWithinCharged(secs, part, identity, start, if s <= k then s else k + 1);
    ChargedGrows(secs, steps, k + 1, identity, start);
    if s <= k {
      assert part[..s] == steps[..s];
      ChargedSome(secs, steps[..s], i, identity, start);
    }
  }

  lemma ChargedSome(secs: nat, steps: seq<Step>, i: nat, identity: Identity, start: nat)
    requires secs > 0 && i < |steps| && Charges(secs, steps[i], identity, start)
    ensures Charged(secs, steps, identity, start).sends > 0
  {
    ChargedGrows(secs, steps, 0, identity, start);
  }

  /** A charged send is accepted when what the table then holds of its window fits. */
  lemma AcceptedWhen(b: Budget, steps: seq<Step>, identity: Identity, start: nat, k: nat)
    requires b.windowSecs > 0 && k < |steps| && Charges(b.windowSecs, steps[k], identity, start)
    requires Fits(b, HeldIn(b.windowSecs, steps[..k + 1], identity, start))
    ensures Accepted(b, steps, k)
  {
    assert steps[..k + 1] == steps[..k] + [steps[k]];
    StepThen(b, steps[..k], steps[k]);
  }

  /** A run that counts a window anew breaks some budget: the one a send short of all that it charges there. */
  lemma ResetExceeds(secs: nat, steps: seq<Step>, identity: Identity, start: nat)
    requires secs > 0 && Answered(secs, steps, identity, start) && !NeverReset(secs, steps, identity, start)
    ensures exists sends: nat, bytes: nat :: !Within(secs, sends, bytes, steps, identity, start)
  {
    var j :| 0 <= j < |steps| && Charges(secs, steps[j], identity, start) && Swept(secs, steps[..j], identity, start);
    var i, s :| 0 <= i < s < j && Charges(secs, steps[..j][i], identity, start) && Closes(secs, steps[..j][s], start);
    assert steps[i] == steps[..j][i] && steps[s] == steps[..j][s];
    var all := Charged(secs, steps, identity, start);
    ChargedSome(secs, steps, i, identity, start);
    var b := Budget(secs, all.sends - 1, all.bytes);
    forall k | 0 <= k < |steps| && Charges(secs, steps[k], identity, start) ensures Accepted(b, steps, k) {
      HoldsLess(secs, steps, identity, start, i, s, j, k);
      AcceptedWhen(b, steps, identity, start, k);
    }
    AllAccepted(b, steps, identity, start);
    assert !Within(secs, all.sends - 1, all.bytes, steps, identity, start);
  }

  /** The window is within the budget of so many sends and bytes. */
  predicate Within(secs: nat, sends: nat, bytes: nat, steps: seq<Step>, identity: Identity, start: nat)
    requires secs > 0
  {
    Fits(Budget(secs, sends, bytes), AcceptedAt(Budget(secs, sends, bytes), steps, identity, start))
  }

  /** While the store answers, a run keeps a window within every budget if and only if no sweep drops the window
      between two sends charged to it. */
  lemma WithinExactly(secs: nat, steps: seq<Step>, identity: Identity, start: nat)
    requires secs > 0 && Answered(secs, steps, identity, start)
    ensures (forall sends: nat, bytes: nat :: Within(secs, sends, bytes, steps, identity, start))
            <==> NeverReset(secs, steps, identity, start)
  {
    if NeverReset(secs, steps, identity, start) {
      forall sends: nat, bytes: nat ensures Within(secs, sends, bytes, steps, identity, start) {
        WindowWithinBudget(Budget(secs, sends, bytes), steps, identity, start);
      }
    } else {
      ResetExceeds(secs, steps, identity, start);
    }
  }

  // -------------------------------------------------------------------------
  // What an interval holds
  // -------------------------------------------------------------------------

  /** The accepted sends of the identity from `from` up to `until`, and their bytes. */
  function AcceptedIn(b: Budget, steps: seq<Step>, identity: Identity, from: nat, until: nat): (h: Held)
    requires b.windowSecs > 0
  {
    if steps == [] then Held(0, 0)
    else
      var n := |steps| - 1;
      var before := AcceptedIn(b, steps[..n], identity, from, until);
      if Accepted(b, steps, n) && steps[n].identity == identity && from <= steps[n].now < until
      then Add(before, steps[n].bytes) else before
  }

  /** A time less than a window's length on is in the same window or the next. */
  lemma NextOrSame(secs: nat, from: nat, now: nat)
    requires secs > 0 && from <= now < from + secs
    ensures WindowOf(secs, now) == WindowOf(secs, from) || WindowOf(secs, now) == WindowOf(secs, from) + secs
  {
    var q := from / secs;
    WindowIs(secs, from);
    InWindow(secs, q, now);
    InWindow(secs, q + 1, now);
    assert secs * (q + 1) == secs * q + secs;
  }

  /** An interval one window long meets at most two windows. */
  lemma {:induction false} IntervalIsTwo(b: Budget, steps: seq<Step>, identity: Identity, from: nat)
    requires b.windowSecs > 0
    ensures var start := WindowOf(b.windowSecs, from);
      var first := AcceptedAt(b, steps, identity, start);
      var second := AcceptedAt(b, steps, identity, start + b.windowSecs);
      var all := AcceptedIn(b, steps, identity, from, from + b.windowSecs);
      all.sends <= first.sends + second.sends && all.bytes <= first.bytes + second.bytes
  {
    if steps != [] {
      var n := |steps| - 1;
      IntervalIsTwo(b, steps[..n], identity, from);
      if from <= steps[n].now < from + b.windowSecs { NextOrSame(b.windowSecs, from, steps[n].now); }
    }
  }

  /** So any interval one window long holds at most twice the budget. */
  lemma IntervalWithinTwice(b: Budget, steps: seq<Step>, identity: Identity, from: nat)
    requires b.windowSecs > 0
    requires NeverReset(b.windowSecs, steps, identity, WindowOf(b.windowSecs, from))
    requires NeverReset(b.windowSecs, steps, identity, WindowOf(b.windowSecs, from) + b.windowSecs)
    ensures var all := AcceptedIn(b, steps, identity, from, from + b.windowSecs);
      all.sends <= 2 * b.sends && all.bytes <= 2 * b.bytes
  {
    WindowWithinBudget(b, steps, identity, WindowOf(b.windowSecs, from));
    WindowWithinBudget(b, steps, identity, WindowOf(b.windowSecs, from) + b.windowSecs);
    IntervalIsTwo(b, steps, identity, from);
  }

  lemma FirstWindows(secs: nat)
    requires secs >= 2
    ensures WindowOf(secs, 0) == 0 && WindowOf(secs, secs - 1) == 0 && WindowOf(secs, secs) == secs
  {
    InWindow(secs, 0, 0);
    InWindow(secs, 0, secs - 1);
    InWindow(secs, 1, secs);
  }

  /** Twice is reached, whatever the window's length: two sends a second apart, either side of an edge. */
  lemma TwiceIsReached(secs: nat)
    requires secs >= 2
    ensures var b := Budget(secs, 1, 100);
      var steps := [Send("a", secs - 1, 100, true, true), Send("a", secs, 100, true, true)];
      Forward(steps) && AcceptedIn(b, steps, "a", secs - 1, secs - 1 + secs) == Held(2, 200)
  {
    var b := Budget(secs, 1, 100);
    var one, two := Send("a", secs - 1, 100, true, true), Send("a", secs, 100, true, true);
    FirstWindows(secs);
    assert [one, two][..1] == [one] && [one][..0] == [];
    assert TableAfter(secs, []) == map[];
    assert TableAfter(secs, [one]) == map[("a", 0) := Held(1, 100)];
    assert Accepted(b, [one], 0);
    assert AcceptedIn(b, [one], "a", secs - 1, secs - 1 + secs) == Held(1, 100);
    assert Accepted(b, [one, two], 1);
  }

  /** A clock that goes back past a sweep: the window is counted anew, and two sends are accepted where one may be. */
  lemma BackwardsBreaksTheBudget(secs: nat)
    requires secs >= 2
    ensures var b := Budget(secs, 1, 100);
      var steps := [Send("a", 0, 1, true, true), Sweep(secs, true), Send("a", secs - 1, 1, true, true)];
      !NeverReset(secs, steps, "a", 0) && AcceptedAt(b, steps, "a", 0) == Held(2, 2)
  {
    var b := Budget(secs, 1, 100);
    var one, sweep, two := Send("a", 0, 1, true, true), Sweep(secs, true), Send("a", secs - 1, 1, true, true);
    var steps := [one, sweep, two];
    FirstWindows(secs);
    assert steps[..2] == [one, sweep] && [one, sweep][..1] == [one] && [one][..0] == [];
    assert TableAfter(secs, []) == map[];
    assert TableAfter(secs, [one]) == map[("a", 0) := Held(1, 1)];
    assert TableAfter(secs, [one, sweep]) == map[];
    assert Accepted(b, [one], 0);
    assert AcceptedAt(b, [one], "a", 0) == Held(1, 1);
    assert AcceptedAt(b, [one, sweep], "a", 0) == Held(1, 1);
    assert Accepted(b, steps, 2);
    SweepAfter(secs, [one, sweep], 0, "a", 0);
    assert Charges(secs, steps[2], "a", 0) && Swept(secs, steps[..2], "a", 0);
  }
}
