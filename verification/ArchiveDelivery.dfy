/**
 The archive end to end: what the queue hands over, what the hubs are asked for and told, and the run of
 passes it all makes.
 */
module ArchiveDelivery {
  import opened Prelude
  import opened Archive
  import Runs = ArchiveRuns
  import Consumer = ArchiveConsumer

  /** One delivery of the queue: its messages, the hubs that answer, whether the write lands and whether it is
      answered as landed, and for each id how many tables ago its row was read. */
  datatype Delivery = Delivery(
    raws: seq<Consumer.Raw>, hubs: Consumer.Hubs, lands: bool, answered: bool, age: string -> nat)

  /** The handler knows the pass as written.  A write that landed and was answered as an error is not known. */
  predicate Known(d: Delivery) {
    d.lands && d.answered
  }

  /** What the handler of one delivery leaves: the settled queue, the pass, and what each hub is told. */
  datatype Handled = Handled(receipts: seq<Consumer.Receipt>, pass: Runs.Pass, told: seq<Consumer.Group<Consumer.Done>>)

  function IdsOf(batch: seq<Message>): (ids: set<string>) {
    set i | 0 <= i < |batch| :: batch[i].id
  }

  /** The table so many before the last, or the first. */
  function Ago(tables: seq<Table>, age: nat): (t: Table)
    requires tables != []
  {
    tables[SaturatingSub(|tables| - 1, age)]
  }

  /** The rows of a batch's own ids, each as the table was when it was read. */
  function ReadHeld(tables: seq<Table>, batch: seq<Message>, age: string -> nat): (held: map<string, Held>)
    requires tables != []
  {
    map id | id in IdsOf(batch) && id in Ago(tables, age(id)) ::
      Held(Ago(tables, age(id))[id].recipient, Ago(tables, age(id))[id].version)
  }

  /** What a handler did with its delivery: every message settled as its fate is, the pass given the messages kept,
      and each hub told of its own messages when the pass is known as written. */
  ghost predicate HandledRightly(d: Delivery, h: Handled) {
    && h.pass.landed == d.lands && h.pass.batch == Consumer.KeptOf(d.raws, d.hubs)
    && |h.receipts| == |d.raws| && |h.pass.verdicts| == |h.pass.batch|
    && (forall i :: 0 <= i < |d.raws| ==> h.receipts[i] == Consumer.Fate(d.raws[i], d.hubs, d.lands && d.answered))
    && (forall q :: Consumer.ListFor(h.told, q) ==
                    if d.lands && d.answered then Consumer.Reports(h.pass.batch, h.pass.verdicts, q) else [])
  }

  /** The handler of one delivery. */
  method Handle(tables: seq<Table>, d: Delivery) returns (t: Table, h: Handled)
    requires tables != []
    ensures HandledRightly(d, h) && Planned(h.pass.batch, h.pass.held, h.pass.verdicts)
    ensures h.pass.held == ReadHeld(tables, h.pass.batch, d.age)
    ensures t == if d.lands then Written(tables[|tables| - 1], h.pass.batch, h.pass.verdicts) else tables[|tables| - 1]
  {
    var q, batch := Consumer.Consume(d.raws, d.hubs, Known(d));
    var held, verdicts := ReadHeld(tables, batch, d.age), [];
    t, verdicts := ArchiveBatch(tables[|tables| - 1], held, batch, d.lands);
    var told := [];
    if Known(d) { told := Consumer.DoneByRecipient(batch, verdicts); }
    h := Handled(q.receipts, Runs.Pass(batch, held, verdicts, d.lands), told);
  }

  /** The passes of the handled deliveries. */
  function Passes(hs: seq<Handled>): (passes: seq<Runs.Pass>) {
    seq(|hs|, i requires 0 <= i < |hs| => hs[i].pass)
  }

  /** The deliveries of the queue handled one after another, each on reads as stale as it likes: a run. */
  method HandleAll(first: Table, ds: seq<Delivery>) returns (tables: seq<Table>, hs: seq<Handled>)
    ensures |hs| == |ds| && |tables| == |ds| + 1 && tables[0] == first
    ensures Runs.RunOf(tables, Passes(hs))
    ensures forall k :: 0 <= k < |ds| ==> HandledRightly(ds[k], hs[k])
  {
    tables, hs := [first], [];
    for n := 0 to |ds|
      invariant |hs| == n && |tables| == n + 1 && tables[0] == first
      invariant Runs.RunOf(tables, Passes(hs))
      invariant forall k :: 0 <= k < n ==> HandledRightly(ds[k], hs[k])
    {
      var t, h := Handle(tables, ds[n]);
      RunOn(tables, hs, t, h, ds[n].age);
      tables, hs := tables + [t], hs + [h];
    }
  }

  lemma RunOn(tables: seq<Table>, hs: seq<Handled>, t: Table, h: Handled, age: string -> nat)
    requires |tables| == |hs| + 1 && Runs.RunOf(tables, Passes(hs))
    requires Planned(h.pass.batch, h.pass.held, h.pass.verdicts) && h.pass.held == ReadHeld(tables, h.pass.batch, age)
    requires t == if h.pass.landed then Written(tables[|hs|], h.pass.batch, h.pass.verdicts) else tables[|hs|]
    ensures Runs.RunOf(tables + [t], Passes(hs + [h]))
  {
    var all, passes := tables + [t], Passes(hs + [h]);
    forall k: nat | k < |passes| ensures Runs.PassAt(all, passes, k) {
      if k < |hs| {
        assert Runs.PassAt(tables, Passes(hs), k);
        assert passes[k] == Passes(hs)[k];
        forall id | Runs.Names(passes[k].batch, id) ensures Runs.Stale(all, k, passes[k].held, id) {
          assert Runs.Stale(tables, k, passes[k].held, id);
          var j: nat :| Runs.ReadAt(tables, k, passes[k].held, id, j);
          assert Runs.ReadAt(all, k, passes[k].held, id, j);
        }
      } else {
        forall id | Runs.Names(passes[k].batch, id) ensures Runs.Stale(all, k, passes[k].held, id) {
          assert id in IdsOf(h.pass.batch);
          assert Runs.ReadAt(all, k, passes[k].held, id, SaturatingSub(|tables| - 1, age(id)));
        }
      }
    }
  }

  // -------------------------------------------------------------------------
  // What an acknowledgment to the queue means
  // -------------------------------------------------------------------------

  /** A message kept is in the pass. */
  lemma {:induction false} KeptIsIn(raws: seq<Consumer.Raw>, hubs: Consumer.Hubs, i: nat) returns (j: nat)
    requires i < |raws| && !Consumer.Malformed(raws[i]) && Consumer.Decide(raws[i].value, hubs).Keep?
    ensures j < |Consumer.KeptOf(raws, hubs)|
    ensures Consumer.KeptOf(raws, hubs)[j] == Consumer.Decide(raws[i].value, hubs).m
  {
    var n := |raws| - 1;
    if i == n {
      j := |Consumer.KeptOf(raws[..n], hubs)|;
    } else {
      j := KeptIsIn(raws[..n], hubs, i);
    }
  }

  /** A message the queue was told is done with, that parses to a whole message and is not gone: either its body
      did not stay in its hub, or its hub did not answer, or answered with the body. */
  predicate AckedFor(d: Delivery, h: Handled, i: nat) {
    && i < |d.raws| && i < |h.receipts| && h.receipts[i].acks == 1
    && d.raws[i].Some?
    && var m := d.raws[i].value;
       && m.version > 0 && m.recipient != "" && m.id != "" && (m.change.Acknowledge? || m.body.Some? || m.inHub)
       && (m.body.Some? || !m.inHub || m.recipient !in d.hubs
           || (m.id in d.hubs[m.recipient] && d.hubs[m.recipient][m.id].Some?))
  }

  /**
   Nothing acknowledged is lost.  In any run of deliveries, with duplicates, reorderings, any batching,
   stale reads and writes that fail, a well-formed message of a one-recipient id that is acknowledged
   and not gone from its hub is then archived at its version or a newer one, and stays so.
   */
  lemma AckedIsArchived(tables: seq<Table>, ds: seq<Delivery>, hs: seq<Handled>, k: nat, i: nat, recipient: string,
                        later: nat)
    requires |hs| == |ds| && Runs.RunOf(tables, Passes(hs)) && k < |ds| && k < later < |tables|
    requires HandledRightly(ds[k], hs[k]) && AckedFor(ds[k], hs[k], i)
    requires Runs.OneRecipient(tables, Passes(hs), ds[k].raws[i].value.id, recipient)
    ensures Covered(tables[later], ds[k].raws[i].value)
  {
    var m := ds[k].raws[i].value;
    var j := KeptIsIn(ds[k].raws, ds[k].hubs, i);
    assert Passes(hs)[k] == hs[k].pass;
    Runs.ReportsSound(tables, Passes(hs), m.id, recipient, k, j);
    Runs.RunForward(tables, Passes(hs), k + 1, later);
  }
}
