/**
 The bounded fan-out of a broadcast: windows of concurrent pushes, one retry of those that timed out, under
 one wall budget.  The log is what an observer of the pushes and of the clock sees.
 */
module FanOut {
  import opened Prelude

  datatype Outcome = Delivered | NoSocket | TimedOut | Failed | Skipped

  /** A push in flight: how many polls find it pending, and what it then comes to. */
  datatype Future = Future(pending: nat, outcome: Outcome)

  /** A push the hub can answer or that its own bound ends: never one that was not attempted. */
  type Push = p: (nat, nat) -> Future | forall i, attempt :: !p(i, attempt).outcome.Skipped?
    witness (i: nat, attempt: nat) => Future(0, Failed)

  datatype Item = Item(index: nat, future: Future)

  datatype Event =
    | Looked(time: nat)
    | Started(index: nat, attempt: nat)
    | Answered(index: nat, outcome: Outcome)

  // -------------------------------------------------------------------------
  // Reading a log
  // -------------------------------------------------------------------------

  function InFlight(log: seq<Event>): (n: int) {
    if log == [] then 0
    else InFlight(log[..|log| - 1]) + match log[|log| - 1]
      case Started(_, _) => 1
      case Answered(_, _) => -1
      case Looked(_) => 0
  }

  /** What a subscriber's slot holds: its last answer, `Skipped` before there is one. */
  function SlotOf(log: seq<Event>, i: nat): (o: Outcome) {
    if log == [] then Skipped
    else
      var last := log[|log| - 1];
      if last.Answered? && last.index == i then last.outcome else SlotOf(log[..|log| - 1], i)
  }

  /** The subscribers pushed with the attempt, in order. */
  function Starts(log: seq<Event>, attempt: nat): (r: seq<nat>) {
    if log == [] then []
    else
      var last := log[|log| - 1];
      Starts(log[..|log| - 1], attempt) + if last.Started? && last.attempt == attempt then [last.index] else []
  }

  function LastLook(log: seq<Event>): (r: Option<nat>) {
    if log == [] then None
    else if log[|log| - 1].Looked? then Some(log[|log| - 1].time) else LastLook(log[..|log| - 1])
  }

  /** Some clock read was at the deadline or past it. */
  predicate Spent(log: seq<Event>, deadline: nat) {
    log != [] && (Spent(log[..|log| - 1], deadline) || (log[|log| - 1].Looked? && deadline <= log[|log| - 1].time))
  }

  /** At every moment at most `width` pushes are in flight, and each was started under a clock read before the
      deadline; a second push of a subscriber answers a timeout. */
  predicate Bounded(log: seq<Event>, width: nat, deadline: nat) {
    forall k :: 0 <= k < |log| ==> BoundedAt(log, k, width, deadline)
  }

  predicate BoundedAt(log: seq<Event>, k: nat, width: nat, deadline: nat)
    requires k < |log|
  {
    && InFlight(log[..k + 1]) <= width
    && (log[k].Started? ==> LastLook(log[..k]).Some? && LastLook(log[..k]).value < deadline && log[k].attempt <= 1)
    && (log[k].Started? && log[k].attempt == 1 ==> SlotOf(log[..k], log[k].index).TimedOut?)
  }

  lemma LogThen(log: seq<Event>, e: Event)
    ensures (log + [e])[..|log|] == log
    ensures InFlight(log + [e]) == InFlight(log) + (if e.Started? then 1 else if e.Answered? then -1 else 0)
    ensures forall i :: SlotOf(log + [e], i) == if e.Answered? && e.index == i then e.outcome else SlotOf(log, i)
    ensures forall a :: Starts(log + [e], a) == Starts(log, a) + if e.Started? && e.attempt == a then [e.index] else []
    ensures forall d: nat :: Spent(log + [e], d) <==> Spent(log, d) || (e.Looked? && d <= e.time)
    ensures LastLook(log + [e]) == if e.Looked? then Some(e.time) else LastLook(log)
  {
    assert (log + [e])[..|log|] == log;
  }

  lemma BoundedThen(log: seq<Event>, e: Event, width: nat, deadline: nat)
    requires Bounded(log, width, deadline)
    requires InFlight(log + [e]) <= width
    requires e.Started? ==> LastLook(log).Some? && LastLook(log).value < deadline && e.attempt <= 1
    requires e.Started? && e.attempt == 1 ==> SlotOf(log, e.index).TimedOut?
    ensures Bounded(log + [e], width, deadline)
  {
    var all := log + [e];
    forall k | 0 <= k < |all| ensures BoundedAt(all, k, width, deadline) {
      assert all[..k] == log[..k] && (k < |log| ==> all[..k + 1] == log[..k + 1]);
      if k == |log| {
        assert all[..k + 1] == all && log[..k] == log;
      } else {
        assert BoundedAt(log, k, width, deadline);
      }
    }
  }

  // -------------------------------------------------------------------------
  // The fan-out
  // -------------------------------------------------------------------------

  /** The slots hold what the log says. */
  ghost predicate Holds(out: array<Outcome>, log: seq<Event>)
    reads out
  {
    forall i :: 0 <= i < out.Length ==> out[i] == SlotOf(log, i)
  }

  predicate Indices(items: seq<Item>, count: nat) {
    && (forall k :: 0 <= k < |items| ==> items[k].index < count)
    && (forall j, k :: 0 <= j < k < |items| ==> items[j].index != items[k].index)
  }

  /** The window's pushes have landed in the slots, and no other slot changed. */
  ghost predicate Landed(log: seq<Event>, after: seq<Event>, items: seq<Item>) {
    && (forall k :: 0 <= k < |items| ==> SlotOf(after, items[k].index) == items[k].future.outcome)
    && (forall i :: (forall k :: 0 <= k < |items| ==> items[k].index != i) ==> SlotOf(after, i) == SlotOf(log, i))
  }

  function CountTrue(s: seq<bool>): (n: nat) {
    if s == [] then 0 else CountTrue(s[..|s| - 1]) + if s[|s| - 1] then 1 else 0
  }

  lemma {:induction false} CountLess(s: seq<bool>, k: nat)
    requires k < |s| && s[k]
    ensures CountTrue(s) == CountTrue(s[k := false]) + 1
    decreases |s|
  {
    if k < |s| - 1 {
      CountLess(s[..|s| - 1], k);
      assert s[k := false][..|s| - 1] == s[..|s| - 1][k := false];
    } else {
      assert s[k := false][..|s| - 1] == s[..|s| - 1];
    }
  }

  lemma {:induction false} CountZero(s: seq<bool>)
    ensures CountTrue(s) == 0 <==> forall k :: 0 <= k < |s| ==> !s[k]
    ensures (forall k :: 0 <= k < |s| ==> s[k]) ==> CountTrue(s) == |s|
    ensures CountTrue(s) <= |s|
  {
    if s != [] { CountZero(s[..|s| - 1]); }
  }

  /** A window part of the way: the futures still waiting, and the log since it began. */
  ghost predicate Joining(items: seq<Item>, waiting: seq<bool>, log: seq<Event>, after: seq<Event>) {
    && |waiting| == |items| && InFlight(after) == CountTrue(waiting)
    && (forall k :: 0 <= k < |items| && !waiting[k] ==> SlotOf(after, items[k].index) == items[k].future.outcome)
    && (forall i :: (forall k :: 0 <= k < |items| ==> items[k].index != i) ==> SlotOf(after, i) == SlotOf(log, i))
    && (forall attempt :: Starts(after, attempt) == Starts(log, attempt))
    && (forall d: nat :: Spent(log, d) ==> Spent(after, d))
  }

  lemma AnswerJoins(items: seq<Item>, waiting: seq<bool>, log: seq<Event>, after: seq<Event>, k: nat, count: nat)
    requires Indices(items, count) && Joining(items, waiting, log, after) && k < |items| && waiting[k]
    ensures Joining(items, waiting[k := false], log, after + [Answered(items[k].index, items[k].future.outcome)])
  {
    LogThen(after, Answered(items[k].index, items[k].future.outcome));
    CountLess(waiting, k);
  }

  function Longest(items: seq<Item>): (n: nat)
    ensures forall k :: 0 <= k < |items| ==> items[k].future.pending <= n
  {
    if items == [] then 0
    else
      var before := Longest(items[..|items| - 1]);
      assert forall k :: 0 <= k < |items| - 1 ==> items[k] == items[..|items| - 1][k];
      if before < items[|items| - 1].future.pending then items[|items| - 1].future.pending else before
  }

  /** A future resolves into its own slot. */
  method Resolve(items: seq<Item>, waiting: seq<bool>, k: nat, out: array<Outcome>,
                 ghost log: seq<Event>, ghost after: seq<Event>, ghost width: nat, ghost deadline: nat)
    returns (left: seq<bool>, ghost longer: seq<Event>)
    requires Indices(items, out.Length) && Joining(items, waiting, log, after) && k < |items| && waiting[k]
    requires Holds(out, after) && Bounded(after, width, deadline) && |items| <= width
    modifies out
    ensures left == waiting[k := false] && CountTrue(waiting) == CountTrue(left) + 1
    ensures Joining(items, left, log, longer) && Holds(out, longer) && Bounded(longer, width, deadline)
  {
    ghost var answer := Answered(items[k].index, items[k].future.outcome);
    out[items[k].index] := items[k].future.outcome;
    left := waiting[k := false];
    longer := after + [answer];
    AnswerJoins(items, waiting, log, after, k, out.Length);
    CountLess(waiting, k);
    CountZero(waiting);
    LogThen(after, answer);
    BoundedThen(after, answer, width, deadline);
  }

  /** Poll every future still waiting once: those ready by this round resolve. */
  method PollAll(items: seq<Item>, waiting: seq<bool>, round: nat, out: array<Outcome>,
                 ghost log: seq<Event>, ghost after: seq<Event>, ghost width: nat, ghost deadline: nat)
    returns (left: seq<bool>, resolved: nat, ghost longer: seq<Event>)
    requires Indices(items, out.Length) && Joining(items, waiting, log, after)
    requires Holds(out, after) && Bounded(after, width, deadline) && |items| <= width
    modifies out
    ensures Joining(items, left, log, longer) && Holds(out, longer) && Bounded(longer, width, deadline)
    ensures resolved + CountTrue(left) == CountTrue(waiting)
    ensures forall k :: 0 <= k < |items| && left[k] ==> round < items[k].future.pending
  {
    left, resolved, longer := waiting, 0, after;
    for k := 0 to |items|
      invariant Joining(items, left, log, longer) && Holds(out, longer) && Bounded(longer, width, deadline)
      invariant resolved + CountTrue(left) == CountTrue(waiting)
      invariant forall j :: 0 <= j < k && left[j] ==> round < items[j].future.pending
    {
      if left[k] && items[k].future.pending <= round {
        left, longer := Resolve(items, left, k, out, log, longer, width, deadline);
        resolved := resolved + 1;
      }
    }
  }

  /** Poll the futures of one window until none is left, each into its own slot as it resolves. */
  method JoinWindow(items: seq<Item>, out: array<Outcome>, ghost log: seq<Event>, ghost width: nat, ghost deadline: nat)
    returns (ghost after: seq<Event>)
    requires Indices(items, out.Length) && Holds(out, log)
    requires InFlight(log) == |items| <= width && Bounded(log, width, deadline)
    modifies out
    ensures Holds(out, after) && Landed(log, after, items)
    ensures InFlight(after) == 0 && Bounded(after, width, deadline)
    ensures forall attempt :: Starts(after, attempt) == Starts(log, attempt)
    ensures forall d: nat :: Spent(log, d) ==> Spent(after, d)
  {
    after := log;
    var waiting := seq(|items|, k => true);
    var remaining := |items|;
    var round := 0;
    CountZero(waiting);
    while remaining != 0
      invariant Joining(items, waiting, log, after) && remaining == CountTrue(waiting)
      invariant Holds(out, after) && Bounded(after, width, deadline)
      invariant forall k :: 0 <= k < |items| && waiting[k] ==> round <= items[k].future.pending
      decreases Longest(items) + 1 - round
    {
      var resolved;
      CountZero(waiting);
      waiting, resolved, after := PollAll(items, waiting, round, out, log, after, width, deadline);
      remaining := remaining - resolved;
      round := round + 1;
    }
    CountZero(waiting);
  }

  /** The pushes of a window may begin: the clock was read in time, and a second attempt answers a timeout. */
  ghost predicate MayStart(log: seq<Event>, window: seq<nat>, attempt: nat, deadline: nat) {
    && attempt <= 1 && LastLook(log).Some? && LastLook(log).value < deadline
    && (attempt == 1 ==> forall k :: 0 <= k < |window| ==> SlotOf(log, window[k]).TimedOut?)
  }

  /** The log after a window's pushes were started. */
  ghost predicate Begun(log: seq<Event>, after: seq<Event>, window: seq<nat>, attempt: nat) {
    && InFlight(after) == InFlight(log) + |window| && LastLook(after) == LastLook(log)
    && (forall i :: SlotOf(after, i) == SlotOf(log, i))
    && (forall a :: Starts(after, a) == Starts(log, a) + if a == attempt then window else [])
    && (forall d: nat :: Spent(log, d) ==> Spent(after, d))
  }

  /** Make the window's futures. */
  method StartWindow(window: seq<nat>, attempt: nat, push: Push, ghost log: seq<Event>, ghost width: nat,
                     ghost deadline: nat)
    returns (items: seq<Item>, ghost after: seq<Event>)
    requires InFlight(log) == 0 && |window| <= width && Bounded(log, width, deadline)
    requires MayStart(log, window, attempt, deadline)
    ensures |items| == |window|
    ensures forall k :: 0 <= k < |window| ==> items[k] == Item(window[k], push(window[k], attempt))
    ensures Begun(log, after, window, attempt) && Bounded(after, width, deadline)
  {
    items, after := [], log;
    for k := 0 to |window|
      invariant |items| == k && forall j :: 0 <= j < k ==> items[j] == Item(window[j], push(window[j], attempt))
      invariant Begun(log, after, window[..k], attempt) && Bounded(after, width, deadline)
    {
      LogThen(after, Started(window[k], attempt));
      BoundedThen(after, Started(window[k], attempt), width, deadline);
      assert window[..k + 1] == window[..k] + [window[k]];
      items := items + [Item(window[k], push(window[k], attempt))];
      after := after + [Started(window[k], attempt)];
    }
    assert window[..|window|] == window;
  }

  /** The log after the pushes of `idxs` were started and answered. */
  ghost predicate Pushed(log: seq<Event>, after: seq<Event>, idxs: seq<nat>, attempt: nat, push: Push) {
    && InFlight(after) == 0
    && (forall j :: 0 <= j < |idxs| ==> SlotOf(after, idxs[j]) == push(idxs[j], attempt).outcome)
    && (forall i :: i !in idxs ==> SlotOf(after, i) == SlotOf(log, i))
    && (forall a :: Starts(after, a) == Starts(log, a) + if a == attempt then idxs else [])
    && (forall d: nat :: Spent(log, d) ==> Spent(after, d))
  }

  /** One window, started and joined. */
  method DriveWindow(window: seq<nat>, attempt: nat, push: Push, out: array<Outcome>,
                     ghost log: seq<Event>, ghost width: nat, ghost deadline: nat)
    returns (ghost after: seq<Event>)
    requires Distinct(window) && forall k :: 0 <= k < |window| ==> window[k] < out.Length
    requires InFlight(log) == 0 && |window| <= width && Bounded(log, width, deadline) && Holds(out, log)
    requires MayStart(log, window, attempt, deadline)
    modifies out
    ensures Pushed(log, after, window, attempt, push) && Bounded(after, width, deadline) && Holds(out, after)
  {
    var items;
    items, after := StartWindow(window, attempt, push, log, width, deadline);
    ghost var begun := after;
    after := JoinWindow(items, out, begun, width, deadline);
    forall i | i !in window ensures SlotOf(after, i) == SlotOf(log, i) {
      assert forall k :: 0 <= k < |items| ==> items[k].index == window[k];
    }
    forall j | 0 <= j < |window| ensures SlotOf(after, window[j]) == push(window[j], attempt).outcome {
      assert items[j].index == window[j];
    }
  }

  lemma Clash(a: seq<nat>, b: seq<nat>, j: nat, k: nat)
    requires Distinct(a + b) && j < |a| && k < |b|
    ensures a[j] != b[k]
  {
    assert (a + b)[j] == a[j] && (a + b)[|a| + k] == b[k];
  }

  lemma PushedThen(log: seq<Event>, middle: seq<Event>, after: seq<Event>, a: seq<nat>, b: seq<nat>, attempt: nat,
                   push: Push)
    requires Pushed(log, middle, a, attempt, push) && Pushed(middle, after, b, attempt, push)
    requires Distinct(a + b)
    ensures Pushed(log, after, a + b, attempt, push)
  {
    forall j | 0 <= j < |a| ensures a[j] !in b {
      if a[j] in b {
        var k :| 0 <= k < |b| && b[k] == a[j];
        Clash(a, b, j, k);
      }
    }
    forall x | 0 <= x < |a + b| ensures SlotOf(after, (a + b)[x]) == push((a + b)[x], attempt).outcome {
      if x < |a| { assert (a + b)[x] == a[x]; } else { assert (a + b)[x] == b[x - |a|]; }
    }
  }

  lemma LookKeeps(log: seq<Event>, time: nat, width: nat, deadline: nat)
    requires Bounded(log, width, deadline) && InFlight(log) <= width
    ensures var after := log + [Looked(time)];
      && Bounded(after, width, deadline) && LastLook(after) == Some(time) && InFlight(after) == InFlight(log)
      && (forall i :: SlotOf(after, i) == SlotOf(log, i))
      && (forall d: nat :: Spent(after, d) <==> Spent(log, d) || d <= time)
      && forall a :: Starts(after, a) == Starts(log, a)
  {
    LogThen(log, Looked(time));
    BoundedThen(log, Looked(time), width, deadline);
  }

  /** So many pushes are windows of `w` and no more. */
  predicate WholeWindows(pushes: nat, w: nat) {
    pushes == 0 || (0 < w <= pushes && WholeWindows(pushes - w, w))
  }

  /** The next window of a drive. */
  method DriveNext(idxs: seq<nat>, from: nat, n: nat, attempt: nat, push: Push, out: array<Outcome>,
                   ghost log: seq<Event>, ghost middle: seq<Event>, ghost width: nat, ghost deadline: nat)
    returns (ghost after: seq<Event>)
    requires from + n <= |idxs| && n <= width
    requires Distinct(idxs) && forall k :: 0 <= k < |idxs| ==> idxs[k] < out.Length
    requires Pushed(log, middle, idxs[..from], attempt, push)
    requires MayStart(middle, [], attempt, deadline)
    requires attempt == 1 ==> forall k :: 0 <= k < |idxs| ==> SlotOf(log, idxs[k]).TimedOut?
    requires Bounded(middle, width, deadline) && Holds(out, middle) && WholeWindows(from, width)
    modifies out
    ensures Pushed(log, after, idxs[..from + n], attempt, push)
    ensures n == width ==> WholeWindows(from + n, width)
    ensures Bounded(after, width, deadline) && Holds(out, after)
  {
    var window := idxs[from..from + n];
    assert idxs[..from] + window == idxs[..from + n];
    NotYet(log, middle, idxs, from, window, attempt, push);
    after := DriveWindow(window, attempt, push, out, middle, width, deadline);
    PushedThen(log, middle, after, idxs[..from], window, attempt, push);
  }

  /** The clock read, and the next window pushed unless it is at the deadline. */
  method DriveOn(idxs: seq<nat>, from: nat, attempt: nat, push: Push, out: array<Outcome>,
                 ghost log: seq<Event>, ghost middle: seq<Event>, width: nat, deadline: nat)
    returns (spent: bool, to': nat, ghost after: seq<Event>)
    requires from < |idxs| && width > 0 && WholeWindows(from, width)
    requires Distinct(idxs) && forall k :: 0 <= k < |idxs| ==> idxs[k] < out.Length
    requires Pushed(log, middle, idxs[..from], attempt, push) && attempt <= 1
    requires attempt == 1 ==> forall k :: 0 <= k < |idxs| ==> SlotOf(log, idxs[k]).TimedOut?
    requires Bounded(middle, width, deadline) && Holds(out, middle)
    modifies out
    ensures to' <= |idxs| && Pushed(log, after, idxs[..to'], attempt, push)
    ensures Bounded(after, width, deadline) && Holds(out, after)
    ensures if spent then to' == from && Spent(after, deadline) else from < to'
    ensures to' < |idxs| ==> WholeWindows(to', width)
  {
    var time: nat := *;
    LookKeeps(middle, time, width, deadline);
    after := middle + [Looked(time)];
    if time >= deadline { return true, from, after; }
    var n := Min(width, |idxs| - from);
    after := DriveNext(idxs, from, n, attempt, push, out, log, after, width, deadline);
    spent, to' := false, from + n;
  }

  /** Windows of at most `width` pushes, the clock read before each; the rest is left once it reads the deadline. */
  method DriveWindows(idxs: seq<nat>, attempt: nat, width: nat, out: array<Outcome>, deadline: nat, push: Push,
                      ghost log: seq<Event>)
    returns (ghost after: seq<Event>, ghost done: nat)
    requires Distinct(idxs) && forall k :: 0 <= k < |idxs| ==> idxs[k] < out.Length
    requires InFlight(log) == 0 && Bounded(log, Max(width, 1), deadline) && Holds(out, log)
    requires attempt <= 1 && (attempt == 1 ==> forall k :: 0 <= k < |idxs| ==> SlotOf(log, idxs[k]).TimedOut?)
    modifies out
    ensures done <= |idxs| && Pushed(log, after, idxs[..done], attempt, push)
    ensures Bounded(after, Max(width, 1), deadline) && Holds(out, after)
    ensures done < |idxs| ==> Spent(after, deadline) && WholeWindows(done, Max(width, 1))
  {
    after, done := log, 0;
    var from, w := 0, Max(width, 1);
    assert idxs[..0] == [];
    while from < |idxs|
      invariant from == done <= |idxs| && Pushed(log, after, idxs[..done], attempt, push)
      invariant done < |idxs| ==> WholeWindows(done, w)
      invariant Bounded(after, w, deadline) && Holds(out, after)
      decreases |idxs| - from
    {
      var spent;
      spent, from, after := DriveOn(idxs, from, attempt, push, out, log, after, w, deadline);
      done := from;
      if spent { break; }
    }
  }

  /** The pushes of the next window are untouched so far. */
  lemma NotYet(log: seq<Event>, after: seq<Event>, idxs: seq<nat>, from: nat, window: seq<nat>, attempt: nat,
               push: Push)
    requires from <= |idxs| && Distinct(idxs) && window <= idxs[from..]
    requires Pushed(log, after, idxs[..from], attempt, push)
    ensures Distinct(window)
    ensures forall k :: 0 <= k < |window| ==> window[k] in idxs && SlotOf(after, window[k]) == SlotOf(log, window[k])
  {
    forall k | 0 <= k < |window| ensures window[k] == idxs[from + k] && window[k] !in idxs[..from] {
      assert window[k] == idxs[from..][k];
    }
    forall j, k | 0 <= j < k < |window| ensures window[j] != window[k] {
      assert window[j] == idxs[from + j] && window[k] == idxs[from + k];
    }
  }

  function UpTo(n: nat): (r: seq<nat>) {
    seq(n, i => i)
  }

  /** The subscribers whose slot holds a timeout, in order. */
  function TimedOuts(slots: seq<Outcome>): (r: seq<nat>) {
    if slots == [] then []
    else TimedOuts(slots[..|slots| - 1]) + if slots[|slots| - 1].TimedOut? then [|slots| - 1] else []
  }

  lemma {:induction false} TimedOutsAre(slots: seq<Outcome>)
    ensures var r := TimedOuts(slots);
      && (forall k :: 0 <= k < |r| ==> r[k] < |slots| && slots[r[k]].TimedOut?)
      && (forall j, k :: 0 <= j < k < |r| ==> r[j] < r[k])
      && (forall i :: 0 <= i < |slots| && slots[i].TimedOut? ==> i in r)
  {
    if slots != [] {
      TimedOutsAre(slots[..|slots| - 1]);
      assert forall i :: 0 <= i < |slots| - 1 ==> slots[..|slots| - 1][i] == slots[i];
    }
  }

  /** The slots after the first attempts of the leading `first` subscribers. */
  function FirstSlots(count: nat, first: nat, push: Push): (r: seq<Outcome>) {
    seq(count, i requires 0 <= i < count => if i < first then push(i, 0).outcome else Skipped)
  }

  method FirstPass(width: nat, slots: array<Outcome>, deadline: nat, push: Push)
    returns (ghost log: seq<Event>, ghost first: nat)
    requires forall i :: 0 <= i < slots.Length ==> slots[i].Skipped?
    modifies slots
    ensures first <= slots.Length && Pushed([], log, UpTo(first), 0, push)
    ensures Bounded(log, Max(width, 1), deadline) && Holds(slots, log)
    ensures slots[..] == FirstSlots(slots.Length, first, push)
    ensures first < slots.Length ==> Spent(log, deadline) && WholeWindows(first, Max(width, 1))
  {
    log, first := DriveWindows(UpTo(slots.Length), 0, width, slots, deadline, push, []);
    assert UpTo(slots.Length)[..first] == UpTo(first);
    forall i | 0 <= i < slots.Length ensures slots[i] == if i < first then push(i, 0).outcome else Skipped {
      if i < first { assert UpTo(first)[i] == i; } else { assert i !in UpTo(first); }
    }
  }

  lemma TimedOutAt(slots: seq<Outcome>, r: seq<nat>, k: nat)
    requires r == TimedOuts(slots) && k < |r|
    ensures r[k] < |slots| && slots[r[k]].TimedOut?
  {
    TimedOutsAre(slots);
  }

  lemma RetryIsOfTimeouts(held: seq<Outcome>, log: seq<Event>)
    requires forall i :: 0 <= i < |held| ==> held[i] == SlotOf(log, i)
    ensures Distinct(TimedOuts(held))
    ensures forall k :: 0 <= k < |TimedOuts(held)| ==>
      TimedOuts(held)[k] < |held| && SlotOf(log, TimedOuts(held)[k]).TimedOut?
  {
    TimedOutsAre(held);
    forall k | 0 <= k < |TimedOuts(held)|
      ensures TimedOuts(held)[k] < |held| && SlotOf(log, TimedOuts(held)[k]).TimedOut?
    {
      TimedOutAt(held, TimedOuts(held), k);
    }
  }

  /** One retry of the pushes that timed out. */
  method Retry(width: nat, slots: array<Outcome>, deadline: nat, push: Push, ghost log: seq<Event>,
               ghost retry: seq<nat>)
    returns (ghost after: seq<Event>, ghost again: nat)
    requires Holds(slots, log) && InFlight(log) == 0 && Bounded(log, Max(width, 1), deadline)
    requires retry == TimedOuts(slots[..])
    modifies slots
    ensures again <= |retry| && Pushed(log, after, retry[..again], 1, push)
    ensures Bounded(after, Max(width, 1), deadline) && Holds(slots, after)
    ensures again < |retry| ==> Spent(after, deadline)
  {
    var held := slots[..];
    var idxs := TimedOuts(held);
    after, again := log, 0;
    if idxs != [] {
      var time: nat := *;
      LookKeeps(log, time, Max(width, 1), deadline);
      after := log + [Looked(time)];
      if time < deadline {
        ghost var looked := after;
        RetryIsOfTimeouts(held, looked);
        after, again := DriveWindows(idxs, 1, width, slots, deadline, push, looked);
      }
    }
  }

  /** The pushes whose first attempt timed out, in order. */
  ghost predicate FirstTimeouts(first: nat, push: Push, retry: seq<nat>) {
    && (forall i :: i in retry <==> 0 <= i < first && push(i, 0).outcome.TimedOut?)
    && (forall j, k :: 0 <= j < k < |retry| ==> retry[j] < retry[k])
  }

  /**
   The fan-out.  For any answers, any order they resolve in and any clock: the first attempts cover
   `0..first`, the second ones are the leading `again` of those that timed out, each slot holds its
   last attempt's outcome, and a slot reads `Skipped` exactly when its subscriber was never pushed.
   */
  method FanOutWith(count: nat, width: nat, deadline: nat, push: Push)
    returns (out: seq<Outcome>, ghost log: seq<Event>, ghost first: nat, ghost again: nat, ghost retry: seq<nat>)
    ensures |out| == count && first <= count && Bounded(log, Max(width, 1), deadline) && InFlight(log) == 0
    ensures Starts(log, 0) == UpTo(first)
    ensures FirstTimeouts(first, push, retry) && again <= |retry| && Starts(log, 1) == retry[..again]
    ensures forall a :: a > 1 ==> Starts(log, a) == []
    ensures forall i :: 0 <= i < count ==>
      out[i] == SlotOf(log, i) == if i in Starts(log, 1) then push(i, 1).outcome
          else if i < first then push(i, 0).outcome else Skipped
    ensures forall i :: 0 <= i < count ==> (out[i].Skipped? <==> i !in Starts(log, 0))
    ensures first < count || again < |retry| ==> Spent(log, deadline)
  {
    var slots := new Outcome[count](_ => Skipped);
    ghost var firstLog;
    firstLog, first := FirstPass(width, slots, deadline, push);
    ghost var held := slots[..];
    retry := TimedOuts(held);
    log, again := Retry(width, slots, deadline, push, firstLog, retry);
    out := slots[..];
    RetryIs(count, first, push, held, retry);
    TwoPasses(firstLog, log, count, first, retry, again, push);
  }

  /** Two passes, one after the other, leave each slot its last attempt's outcome. */
  lemma SlotAt(firstLog: seq<Event>, log: seq<Event>, first: nat, retried: seq<nat>, push: Push, i: nat)
    requires Pushed([], firstLog, UpTo(first), 0, push) && Pushed(firstLog, log, retried, 1, push)
    ensures SlotOf(log, i) == if i in retried then push(i, 1).outcome else if i < first then push(i, 0).outcome
      else Skipped
  {
    if i in retried {
      var k :| 0 <= k < |retried| && retried[k] == i;
    } else if i < first {
      assert UpTo(first)[i] == i;
    } else {
      assert i !in UpTo(first);
    }
  }

  lemma RetryIs(count: nat, first: nat, push: Push, slots: seq<Outcome>, r: seq<nat>)
    requires first <= count && slots == FirstSlots(count, first, push) && r == TimedOuts(slots)
    ensures FirstTimeouts(first, push, r)
  {
    TimedOutsAre(slots);
    forall i ensures i in r <==> 0 <= i < first && push(i, 0).outcome.TimedOut? {
      if i in r {
        var k :| 0 <= k < |r| && r[k] == i;
        TimedOutAt(slots, r, k);
      } else if 0 <= i < first {
        assert slots[i] == push(i, 0).outcome;
      }
    }
  }

  lemma SlotsAre(firstLog: seq<Event>, log: seq<Event>, count: nat, first: nat, retry: seq<nat>, again: nat, push: Push)
    requires first <= count && Pushed([], firstLog, UpTo(first), 0, push)
    requires again <= |retry| && Pushed(firstLog, log, retry[..again], 1, push) && forall i :: i in retry ==> i < first
    ensures forall i :: 0 <= i < count ==>
      SlotOf(log, i) == if i in Starts(log, 1) then push(i, 1).outcome else if i < first then push(i, 0).outcome
          else Skipped
    ensures forall i :: 0 <= i < count ==> (i in Starts(log, 0) <==> i < first) && (i in Starts(log, 1) ==> i < first)
  {
    var retried := retry[..again];
    assert Starts(log, 1) == retried && Starts(log, 0) == UpTo(first);
    forall i | 0 <= i < count
      ensures SlotOf(log, i) == if i in retried then push(i, 1).outcome else if i < first then push(i, 0).outcome
        else Skipped
    {
      SlotAt(firstLog, log, first, retried, push, i);
    }
    forall i | 0 <= i < count ensures (i in UpTo(first) <==> i < first) && (i in retried ==> i in retry) {
      if i < first { assert UpTo(first)[i] == i; }
    }
  }

  /** What the log says of two passes, one after the other. */
  lemma TwoPasses(firstLog: seq<Event>, log: seq<Event>, count: nat, first: nat, retry: seq<nat>, again: nat,
                  push: Push)
    requires first <= count && Pushed([], firstLog, UpTo(first), 0, push)
    requires again <= |retry| && Pushed(firstLog, log, retry[..again], 1, push) && FirstTimeouts(first, push, retry)
    ensures InFlight(log) == 0 && Starts(log, 0) == UpTo(first) && Starts(log, 1) == retry[..again]
    ensures forall a :: a > 1 ==> Starts(log, a) == []
    ensures forall i :: 0 <= i < count ==>
      SlotOf(log, i) == if i in Starts(log, 1) then push(i, 1).outcome else if i < first then push(i, 0).outcome
          else Skipped
    ensures forall i :: 0 <= i < count ==> (SlotOf(log, i).Skipped? <==> i !in Starts(log, 0))
  {
    SlotsAre(firstLog, log, count, first, retry, again, push);
    assert Starts([], 0) == [] && Starts([], 1) == [];
  }

  // -------------------------------------------------------------------------
  // The tally
  // -------------------------------------------------------------------------

  datatype Tally = Tally(subscribers: nat, delivered: nat, noSocket: nat, timedOut: nat, failed: nat, skipped: nat)

  /** Each count is how often its outcome occurs, and the five sum to the outcomes. */
  method TallyOf(subscribers: nat, outcomes: seq<Outcome>) returns (t: Tally)
    ensures t.subscribers == subscribers
    ensures t.delivered == multiset(outcomes)[Delivered] && t.noSocket == multiset(outcomes)[NoSocket]
    ensures t.timedOut == multiset(outcomes)[TimedOut] && t.failed == multiset(outcomes)[Failed]
    ensures t.skipped == multiset(outcomes)[Skipped]
    ensures t.delivered + t.noSocket + t.timedOut + t.failed + t.skipped == |outcomes|
  {
    t := Tally(subscribers, 0, 0, 0, 0, 0);
    for i := 0 to |outcomes|
      invariant t.subscribers == subscribers
      invariant t.delivered == multiset(outcomes[..i])[Delivered] && t.noSocket == multiset(outcomes[..i])[NoSocket]
      invariant t.timedOut == multiset(outcomes[..i])[TimedOut] && t.failed == multiset(outcomes[..i])[Failed]
      invariant t.skipped == multiset(outcomes[..i])[Skipped]
      invariant t.delivered + t.noSocket + t.timedOut + t.failed + t.skipped == i
    {
      assert outcomes[..i + 1] == outcomes[..i] + [outcomes[i]];
      match outcomes[i]
      case Delivered => t := t.(delivered := t.delivered + 1);
      case NoSocket => t := t.(noSocket := t.noSocket + 1);
      case TimedOut => t := t.(timedOut := t.timedOut + 1);
      case Failed => t := t.(failed := t.failed + 1);
      case Skipped => t := t.(skipped := t.skipped + 1);
    }
    assert outcomes[..|outcomes|] == outcomes;
  }
}
