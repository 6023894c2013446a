/**
 The archive over whole runs: any delivery sequence, with duplicates, reorderings, any batching,
 failed passes and consumers that planned on stale reads, comes to the row that upserting each
 delivered message in turn would leave.
 */
module ArchiveRuns {
  import opened Prelude
  import opened Archive

  /** One consumer pass: its batch, what it read as held, its plan, and whether its write landed. */
  datatype Pass = Pass(batch: seq<Message>, held: map<string, Held>, verdicts: seq<Verdict>, landed: bool)

  /** The batch names the id: only of such an id does a pass read anything. */
  predicate Names(batch: seq<Message>, id: string) {
    exists i :: 0 <= i < |batch| && batch[i].id == id
  }

  /** What was read of an id is what the table said of it at some earlier time. */
  ghost predicate ReadAt(tables: seq<Table>, k: nat, held: map<string, Held>, id: string, j: nat)
    requires k < |tables|
  {
    && j <= k && (id in held <==> id in tables[j])
    && (id in held ==> held[id] == Held(tables[j][id].recipient, tables[j][id].version))
  }

  ghost predicate Stale(tables: seq<Table>, k: nat, held: map<string, Held>, id: string)
    requires k < |tables|
  {
    exists j: nat :: ReadAt(tables, k, held, id, j)
  }

  ghost predicate PassAt(tables: seq<Table>, passes: seq<Pass>, k: nat)
    requires |tables| == |passes| + 1 && k < |passes|
  {
    var p := passes[k];
    && Planned(p.batch, p.held, p.verdicts)
    && (forall id :: Names(p.batch, id) ==> Stale(tables, k, p.held, id))
    && tables[k + 1] == if p.landed then Written(tables[k], p.batch, p.verdicts) else tables[k]
  }

  /** A run: each pass writes, or fails to write, on the table the passes before it left. */
  ghost predicate RunOf(tables: seq<Table>, passes: seq<Pass>) {
    |tables| == |passes| + 1 && forall k: nat :: k < |passes| ==> PassAt(tables, passes, k)
  }

  /** The messages of the passes whose writes landed, in order. */
  function Delivered(passes: seq<Pass>, k: nat): (msgs: seq<Message>)
    requires k <= |passes|
  {
    if k == 0 then [] else
    Delivered(passes, k - 1) + (if passes[k - 1].landed then passes[k - 1].batch else [])
  }

  lemma {:induction false} RunForward(tables: seq<Table>, passes: seq<Pass>, j: nat, k: nat)
    requires RunOf(tables, passes) && j <= k <= |passes|
    ensures Forward(tables[j], tables[k])
    decreases k
  {
    if j < k {
      RunForward(tables, passes, j, k - 1);
      assert PassAt(tables, passes, k - 1);
      var p := passes[k - 1];
      if p.landed {
        WrittenForward(tables[k - 1], p.batch, p.verdicts);
        ForwardTransitive(tables[j], tables[k - 1], tables[k]);
      }
    }
  }

  lemma ForwardTransitive(a: Table, b: Table, c: Table)
    requires Forward(a, b) && Forward(b, c)
    ensures Forward(a, c)
  {
  }

  // -------------------------------------------------------------------------
  // One id
  // -------------------------------------------------------------------------

  /** The version a row is at; below every version when there is no row. */
  function Level(row: Option<Row>): (v: int) {
    if row.Some? then row.value.version else -1
  }

  /** The highest of the messages' versions of an id, from a level on. */
  function Highest(msgs: seq<Message>, id: string, level: int): (v: int) {
    if msgs == [] then level else
    var m := msgs[|msgs| - 1];
    var before := Highest(msgs[..|msgs| - 1], id, level);
    if m.id == id then Max(before, m.version) else before
  }

  predicate AnyAck(msgs: seq<Message>, id: string) {
    exists i :: 0 <= i < |msgs| && msgs[i].id == id && msgs[i].change.Acknowledge?
  }

  /** A change of the id as its hub counts them: the insert is version 1, an acknowledgment comes after. */
  predicate Counted(m: Message, id: string, recipient: string) {
    m.id == id ==>
      && m.recipient == recipient && (m.change.Insert? ==> m.version == 1)
      && (m.change.Acknowledge? ==> m.version > 1)
  }

  predicate AllCounted(msgs: seq<Message>, id: string, recipient: string) {
    forall i :: 0 <= i < |msgs| ==> Counted(msgs[i], id, recipient)
  }

  /** A row of the recipient's past version 1 was acknowledged. */
  predicate Sound(row: Option<Row>, recipient: string) {
    row.Some? ==> row.value.recipient == recipient && (row.value.version > 1 ==> row.value.acked)
  }

  /** The row is where a list of messages leaves one that began as `first`. */
  ghost predicate Settled(first: Option<Row>, msgs: seq<Message>, id: string, recipient: string, row: Option<Row>) {
    && Sound(row, recipient)
    && Level(row) == Highest(msgs, id, Level(first))
    && (row.Some? ==> (row.value.acked <==> (first.Some? && first.value.acked) || AnyAck(msgs, id)))
  }

  lemma {:induction false} HighestMax(msgs: seq<Message>, id: string, level: int)
    ensures Highest(msgs, id, level) >= level
    ensures forall i :: 0 <= i < |msgs| && msgs[i].id == id ==> Highest(msgs, id, level) >= msgs[i].version
    ensures Highest(msgs, id, level) == level ||
            exists i :: 0 <= i < |msgs| && msgs[i].id == id && Highest(msgs, id, level) == msgs[i].version
  {
    if msgs != [] {
      var init := msgs[..|msgs| - 1];
      HighestMax(init, id, level);
      assert forall i :: 0 <= i < |init| ==> init[i] == msgs[i];
    }
  }

  lemma {:induction false} HighestJoins(a: seq<Message>, b: seq<Message>, id: string, level: int)
    ensures Highest(a + b, id, level) == Highest(b, id, Highest(a, id, level))
  {
    if b == [] {
      assert a + b == a;
    } else {
      HighestJoins(a, b[..|b| - 1], id, level);
      assert (a + b)[..|a + b| - 1] == a + b[..|b| - 1];
    }
  }

  lemma AnyAckJoins(a: seq<Message>, b: seq<Message>, id: string)
    ensures AnyAck(a + b, id) <==> AnyAck(a, id) || AnyAck(b, id)
  {
    assert forall i :: 0 <= i < |a| ==> (a + b)[i] == a[i];
    assert forall i :: 0 <= i < |b| ==> (a + b)[|a| + i] == b[i];
    if AnyAck(b, id) {
      var i :| 0 <= i < |b| && b[i].id == id && b[i].change.Acknowledge?;
      assert (a + b)[|a| + i] == b[i];
    }
  }

  lemma SettledJoins(first: Option<Row>, a: seq<Message>, mid: Option<Row>, b: seq<Message>, row: Option<Row>,
                     id: string, recipient: string)
    requires Settled(first, a, id, recipient, mid) && Settled(mid, b, id, recipient, row)
    ensures Settled(first, a + b, id, recipient, row)
  {
    HighestJoins(a, b, id, Level(first));
    AnyAckJoins(a, b, id);
    HighestMax(a, id, Level(first));
    if AnyAck(a, id) {
      var i :| 0 <= i < |a| && a[i].id == id && a[i].change.Acknowledge?;
      assert Level(mid) >= a[i].version;
    }
  }

  /** A planned pass leaves the row of an id where its batch's messages would: on any stale read. */
  lemma PassSettles(t: Table, p: Pass, id: string, recipient: string)
    requires Planned(p.batch, p.held, p.verdicts)
    requires Sound(At(t, id), recipient) && AllCounted(p.batch, id, recipient)
    requires Names(p.batch, id) ==> Behind(p.held, t, id)
    ensures Settled(At(t, id), p.batch, id, recipient, At(Written(t, p.batch, p.verdicts), id))
  {
    var row := At(t, id);
    HighestMax(p.batch, id, Level(row));
    if i :| 0 <= i < |p.batch| && p.batch[i].id == id {
      var b := BestExists(p.batch, i);
      PassRow(t, p.batch, p.held, p.verdicts, b);
      var m := p.batch[b];
      assert forall j :: 0 <= j < |p.batch| && p.batch[j].id == id ==> p.batch[j].version <= m.version;
      assert Highest(p.batch, id, Level(row)) == Max(Level(row), m.version);
      assert AnyAck(p.batch, id) <==> m.change.Acknowledge? by {
        if AnyAck(p.batch, id) {
          var j :| 0 <= j < |p.batch| && p.batch[j].id == id && p.batch[j].change.Acknowledge?;
          assert Counted(p.batch[j], id, recipient) && Counted(m, id, recipient);
        }
      }
      assert Counted(m, id, recipient);
    } else {
      PassLeavesAlone(t, p.batch, p.verdicts, id);
    }
  }

  /** Upserting in turn leaves it there too. */
  lemma {:induction false} InTurnSettles(t: Table, msgs: seq<Message>, id: string, recipient: string)
    requires Sound(At(t, id), recipient) && AllCounted(msgs, id, recipient)
    ensures Settled(At(t, id), msgs, id, recipient, At(InTurn(t, msgs), id))
  {
    if msgs != [] {
      var init, m := msgs[..|msgs| - 1], msgs[|msgs| - 1];
      InTurnSettles(t, init, id, recipient);
      assert msgs == init + [m];
      var mid := At(InTurn(t, init), id);
      var row := At(InTurn(t, msgs), id);
      OneSettles(mid, m, row, id, recipient);
      SettledJoins(At(t, id), init, mid, [m], row, id, recipient);
    }
  }

  lemma OneSettles(mid: Option<Row>, m: Message, row: Option<Row>, id: string, recipient: string)
    requires Sound(mid, recipient) && Counted(m, id, recipient)
    requires row == if m.id == id then Some(UpsertRow(mid, m)) else mid
    ensures Settled(mid, [m], id, recipient, row)
  {
    assert [m][..0] == [];
    assert Highest([m], id, Level(mid)) == if m.id == id then Max(Level(mid), m.version) else Level(mid);
    assert AnyAck([m], id) <==> m.id == id && m.change.Acknowledge? by {
      if m.id == id && m.change.Acknowledge? { assert [m][0] == m; }
    }
  }

  // -------------------------------------------------------------------------
  // Convergence
  // -------------------------------------------------------------------------

  /** The changes of the id that landed are one recipient's, counted by its hub, and so is the row. */
  ghost predicate OneRecipient(tables: seq<Table>, passes: seq<Pass>, id: string, recipient: string)
    requires |tables| == |passes| + 1
  {
    && Sound(At(tables[0], id), recipient)
    && forall k :: 0 <= k < |passes| && passes[k].landed ==> AllCounted(passes[k].batch, id, recipient)
  }

  /**
   Convergence: after any run the row stands at the highest version delivered, and is acknowledged
   just when it began so or an acknowledgment was delivered.
   */
  lemma {:induction false} Converges(tables: seq<Table>, passes: seq<Pass>, id: string, recipient: string, k: nat)
    requires RunOf(tables, passes) && k <= |passes| && OneRecipient(tables, passes, id, recipient)
    ensures Settled(At(tables[0], id), Delivered(passes, k), id, recipient, At(tables[k], id))
  {
    if k > 0 {
      Converges(tables, passes, id, recipient, k - 1);
      assert PassAt(tables, passes, k - 1);
      var p, t := passes[k - 1], tables[k - 1];
      if p.landed {
        if Names(p.batch, id) { StaleIsOlder(tables, passes, k - 1, id); }
        PassSettles(t, p, id, recipient);
        SettledJoins(At(tables[0], id), Delivered(passes, k - 1), At(t, id), p.batch, At(tables[k], id), id, recipient);
      } else {
        assert Delivered(passes, k) == Delivered(passes, k - 1) + [];
        assert Delivered(passes, k - 1) + [] == Delivered(passes, k - 1);
      }
    }
  }

  /** A read of an earlier table is behind the one the pass writes on. */
  lemma StaleIsOlder(tables: seq<Table>, passes: seq<Pass>, k: nat, id: string)
    requires RunOf(tables, passes) && k < |passes| && Names(passes[k].batch, id)
    ensures Behind(passes[k].held, tables[k], id)
  {
    assert PassAt(tables, passes, k);
    assert Stale(tables, k, passes[k].held, id);
    var j: nat :| ReadAt(tables, k, passes[k].held, id, j);
    RunForward(tables, passes, j, k);
  }

  /** Every message of a landed pass is then held as its hub is told: at its version or a newer one. */
  lemma ReportsSound(tables: seq<Table>, passes: seq<Pass>, id: string, recipient: string, k: nat, i: nat)
    requires RunOf(tables, passes) && k < |passes| && OneRecipient(tables, passes, id, recipient)
    requires passes[k].landed && i < |passes[k].batch| && passes[k].batch[i].id == id
    ensures Covered(tables[k + 1], passes[k].batch[i])
  {
    Converges(tables, passes, id, recipient, k);
    assert PassAt(tables, passes, k);
    StaleIsOlder(tables, passes, k, id);
    PassSettles(tables[k], passes[k], id, recipient);
    HighestMax(passes[k].batch, id, Level(At(tables[k], id)));
    assert Counted(passes[k].batch[i], id, recipient);
  }

  /**
   In every run, whoever the recipients are and however stale the read, a message that a landed pass reports
   without a collision is held as reported if and only if: the read held its id, and the batch's best
   of it is the holder's or the table stood there; or the read did not, and the row is still nobody
   else's.
   */
  lemma ReportSoundInRun(tables: seq<Table>, passes: seq<Pass>, k: nat, i: nat, b: nat)
    requires RunOf(tables, passes) && k < |passes| && passes[k].landed && i < |passes[k].batch|
    requires IsBest(passes[k].batch, b) && passes[k].batch[b].id == passes[k].batch[i].id
    requires i < |passes[k].verdicts| && !passes[k].verdicts[i].Collision?
    ensures var m, t := passes[k].batch[i], tables[k];
            Covered(tables[k + 1], m) <==>
              if m.id in passes[k].held
              then m.id in t && (passes[k].batch[b].recipient == t[m.id].recipient || m.version <= t[m.id].version)
              else m.id !in t || t[m.id].recipient == m.recipient
  {
    assert PassAt(tables, passes, k);
    StaleIsOlder(tables, passes, k, passes[k].batch[i].id);
    ReportSoundBehind(tables[k], passes[k].batch, passes[k].held, passes[k].verdicts, i, b);
  }

  /** The report that is not so on a stale read: another's row came after the read, and the pass reports its own
      message of that id as written. */
  lemma ReportUnsoundStale() returns (tables: seq<Table>, passes: seq<Pass>)
    ensures RunOf(tables, passes) && |passes| == 2 && passes[1].landed
    ensures passes[1].verdicts == [Apply] && |passes[1].batch| == 1 && !Covered(tables[2], passes[1].batch[0])
  {
    var theirs, mine := Message("B", "m", 1, Insert, Some("b"), false), Message("A", "m", 1, Insert, Some("a"), false);
    passes := [Pass([theirs], map[], [Apply], true), Pass([mine], map[], [Apply], true)];
    OnePass(map[], theirs);
    OnePass(map["m" := Row("B", "b", false, 1)], mine);
    tables := [map[], map["m" := Row("B", "b", false, 1)], map["m" := Row("B", "b", false, 1)]];
    assert tables[1] == Upsert(tables[0], theirs) && tables[2] == Upsert(tables[1], mine);
    forall k: nat | k < 2 ensures PassAt(tables, passes, k) {
      forall id | Names(passes[k].batch, id) ensures Stale(tables, k, passes[k].held, id) {
        assert ReadAt(tables, k, passes[k].held, id, 0);
      }
    }
  }

  lemma OnePass(t: Table, m: Message)
    ensures Planned([m], map[], [Apply]) && Written(t, [m], [Apply]) == Upsert(t, m)
  {
    assert [m][..0] == [];
  }

  // -------------------------------------------------------------------------
  // The body
  // -------------------------------------------------------------------------

  /** A message id's body never changes: a message carries it, or (once the row is archived) nothing. */
  predicate Bodied(row: Option<Row>, msgs: seq<Message>, id: string, body: string) {
    forall i :: 0 <= i < |msgs| && msgs[i].id == id ==> Text(msgs[i]) == body || (Text(msgs[i]) == "" && row.Some?)
  }

  predicate Whole(row: Option<Row>, body: string) {
    row.Some? ==> row.value.body == body
  }

  lemma PassKeepsBody(t: Table, p: Pass, id: string, body: string)
    requires Planned(p.batch, p.held, p.verdicts) && Whole(At(t, id), body) && Bodied(At(t, id), p.batch, id, body)
    ensures Whole(At(Written(t, p.batch, p.verdicts), id), body)
  {
    if i :| 0 <= i < |p.batch| && p.batch[i].id == id {
      var b := BestExists(p.batch, i);
      PassRow(t, p.batch, p.held, p.verdicts, b);
    } else {
      PassLeavesAlone(t, p.batch, p.verdicts, id);
    }
  }

  lemma {:induction false} InTurnKeepsBody(t: Table, msgs: seq<Message>, id: string, body: string)
    requires Whole(At(t, id), body) && Bodied(At(t, id), msgs, id, body)
    ensures Whole(At(InTurn(t, msgs), id), body)
    ensures At(t, id).Some? ==> At(InTurn(t, msgs), id).Some?
  {
    if msgs != [] {
      var init := msgs[..|msgs| - 1];
      assert forall i :: 0 <= i < |init| ==> init[i] == msgs[i];
      InTurnKeepsBody(t, init, id, body);
    }
  }

  lemma {:induction false} InTurnJoins(t: Table, a: seq<Message>, b: seq<Message>)
    ensures InTurn(t, a + b) == InTurn(InTurn(t, a), b)
  {
    if b == [] {
      assert a + b == a;
    } else {
      InTurnJoins(t, a, b[..|b| - 1]);
      assert (a + b)[..|a + b| - 1] == a + b[..|b| - 1];
    }
  }

  /** The landed messages carry the id's one body, or omit it only once the row was archived. */
  ghost predicate OneBody(tables: seq<Table>, passes: seq<Pass>, id: string, body: string)
    requires |tables| == |passes| + 1
  {
    && Whole(At(tables[0], id), body)
    && forall k :: 0 <= k < |passes| && passes[k].landed ==> Bodied(At(tables[k], id), passes[k].batch, id, body)
  }

  /**
   The archive is the plain one: after any run the row is the very row that upserting each
   delivered message in turn leaves, version, acknowledgment and body.
   */
  lemma ArchiveIsInTurn(tables: seq<Table>, passes: seq<Pass>, id: string, recipient: string, body: string, k: nat)
    requires RunOf(tables, passes) && k <= |passes|
    requires OneRecipient(tables, passes, id, recipient) && OneBody(tables, passes, id, body)
    ensures At(tables[k], id) == At(InTurn(tables[0], Delivered(passes, k)), id)
    ensures Whole(At(tables[k], id), body)
  {
    var msgs := Delivered(passes, k);
    Converges(tables, passes, id, recipient, k);
    DeliveredCounted(tables, passes, id, recipient, k);
    InTurnSettles(tables[0], msgs, id, recipient);
    BodyIsKept(tables, passes, id, recipient, body, k);
  }

  /** One landed pass keeps the body, in the archive and upserting in turn. */
  lemma PassBothKeep(tables: seq<Table>, passes: seq<Pass>, id: string, recipient: string, body: string, k: nat)
    requires RunOf(tables, passes) && k < |passes| && passes[k].landed
    requires OneRecipient(tables, passes, id, recipient) && OneBody(tables, passes, id, body)
    requires Whole(At(tables[k], id), body) && Whole(At(InTurn(tables[0], Delivered(passes, k)), id), body)
    ensures Whole(At(tables[k + 1], id), body)
    ensures Whole(At(InTurn(tables[0], Delivered(passes, k) + passes[k].batch), id), body)
  {
    PassIs(tables, passes, k);
    PassKeepsBody(tables[k], passes[k], id, body);
    InTurnJoins(tables[0], Delivered(passes, k), passes[k].batch);
    SameLevel(tables, passes, id, recipient, k);
    InTurnKeepsBody(InTurn(tables[0], Delivered(passes, k)), passes[k].batch, id, body);
  }

  lemma PassIs(tables: seq<Table>, passes: seq<Pass>, k: nat)
    requires RunOf(tables, passes) && k < |passes|
    ensures var p := passes[k];
            && Planned(p.batch, p.held, p.verdicts)
            && tables[k + 1] == if p.landed then Written(tables[k], p.batch, p.verdicts) else tables[k]
  {
    assert PassAt(tables, passes, k);
  }

  lemma {:induction false} BodyIsKept(tables: seq<Table>, passes: seq<Pass>, id: string, recipient: string,
                                      body: string, k: nat)
    requires RunOf(tables, passes) && k <= |passes|
    requires OneRecipient(tables, passes, id, recipient) && OneBody(tables, passes, id, body)
    ensures Whole(At(tables[k], id), body) && Whole(At(InTurn(tables[0], Delivered(passes, k)), id), body)
  {
    if k > 0 {
      BodyIsKept(tables, passes, id, recipient, body, k - 1);
      if passes[k - 1].landed {
        PassBothKeep(tables, passes, id, recipient, body, k - 1);
      } else {
        PassIs(tables, passes, k - 1);
        assert Delivered(passes, k - 1) + [] == Delivered(passes, k - 1);
      }
    }
  }

  /** There is a row in the archive just when upserting in turn has one, at the same version. */
  lemma SameLevel(tables: seq<Table>, passes: seq<Pass>, id: string, recipient: string, k: nat)
    requires RunOf(tables, passes) && k <= |passes| && OneRecipient(tables, passes, id, recipient)
    ensures Level(At(tables[k], id)) == Level(At(InTurn(tables[0], Delivered(passes, k)), id))
  {
    Converges(tables, passes, id, recipient, k);
    DeliveredCounted(tables, passes, id, recipient, k);
    InTurnSettles(tables[0], Delivered(passes, k), id, recipient);
  }

  lemma {:induction false} DeliveredCounted(tables: seq<Table>, passes: seq<Pass>, id: string, recipient: string,
                                            k: nat)
    requires |tables| == |passes| + 1 && k <= |passes| && OneRecipient(tables, passes, id, recipient)
    ensures AllCounted(Delivered(passes, k), id, recipient)
  {
    if k > 0 {
      DeliveredCounted(tables, passes, id, recipient, k - 1);
    }
  }

  /** Exactly when one pass keeps an id's body, on any read that holds no row the table lacks: the row was
      there, or the message the batch is judged by carries it. */
  lemma BodyKeptExactly(t: Table, p: Pass, b: nat, body: string)
    requires Planned(p.batch, p.held, p.verdicts) && IsBest(p.batch, b) && body != ""
    requires p.batch[b].id in p.held ==> p.batch[b].id in t
    requires Whole(At(t, p.batch[b].id), body) && (Text(p.batch[b]) == body || Text(p.batch[b]) == "")
    ensures var row := At(Written(t, p.batch, p.verdicts), p.batch[b].id);
            row.Some? && (row.value.body == body <==> p.batch[b].id in t || Text(p.batch[b]) == body)
  {
    PassRow(t, p.batch, p.held, p.verdicts, b);
  }

  /** The messages of the id carry its one body or none. */
  predicate OneText(msgs: seq<Message>, id: string, body: string) {
    forall i :: 0 <= i < |msgs| && msgs[i].id == id ==> Text(msgs[i]) == body || Text(msgs[i]) == ""
  }

  /** The pass wrote the id's body: the best of the id applied, moved the row, and carries it. */
  ghost predicate WroteBody(t: Table, p: Pass, id: string, body: string) {
    p.landed && exists b: nat :: IsBest(p.batch, b) && WritesBody(t, p, b, id, body)
  }

  predicate WritesBody(t: Table, p: Pass, b: nat, id: string, body: string) {
    && b < |p.batch| && p.batch[b].id == id && VerdictOf(p.batch, p.held, b, b).Apply? && Text(p.batch[b]) == body
    && (id in t ==> p.batch[b].version > t[id].version && p.batch[b].recipient == t[id].recipient)
  }

  lemma PassBody(t: Table, p: Pass, id: string, body: string)
    requires Planned(p.batch, p.held, p.verdicts) && p.landed && body != ""
    requires OneText(p.batch, id, body)
    ensures var after := At(Written(t, p.batch, p.verdicts), id);
            (after.Some? && after.value.body == body <==> (id in t && t[id].body == body) || WroteBody(t, p, id, body))
  {
    if i: nat :| i < |p.batch| && p.batch[i].id == id {
      var b := BestExists(p.batch, i);
      PassRow(t, p.batch, p.held, p.verdicts, b);
      assert WroteBody(t, p, id, body) <==> WritesBody(t, p, b, id, body) by {
        forall b': nat | IsBest(p.batch, b') && p.batch[b'].id == id ensures b' == b { BestIsOne(p.batch, b, b'); }
      }
    } else {
      PassLeavesAlone(t, p.batch, p.verdicts, id);
    }
  }

  /** Some pass of the first `k` wrote the body. */
  ghost predicate BodyWritten(tables: seq<Table>, passes: seq<Pass>, id: string, body: string, k: nat)
    requires |tables| == |passes| + 1 && k <= |passes|
  {
    exists j: nat :: j < k && WroteBody(tables[j], passes[j], id, body)
  }

  /**
   Over a whole run, whatever was read and whatever was lost: the archive holds an id's body if and only if
   it began with it or some pass wrote it.  A body once there stays.
   */
  lemma {:induction false} BodySurvivesExactly(tables: seq<Table>, passes: seq<Pass>, id: string, body: string, k: nat)
    requires RunOf(tables, passes) && k <= |passes| && body != ""
    requires forall j :: 0 <= j < |passes| && passes[j].landed ==> OneText(passes[j].batch, id, body)
    ensures (id in tables[k] && tables[k][id].body == body) <==>
              (id in tables[0] && tables[0][id].body == body) || BodyWritten(tables, passes, id, body, k)
  {
    if k > 0 {
      BodySurvivesExactly(tables, passes, id, body, k - 1);
      assert PassAt(tables, passes, k - 1);
      if passes[k - 1].landed { PassBody(tables[k - 1], passes[k - 1], id, body); }
      assert BodyWritten(tables, passes, id, body, k) <==>
        BodyWritten(tables, passes, id, body, k - 1) || WroteBody(tables[k - 1], passes[k - 1], id, body);
    }
  }

  /** The body that is lost: an insert and its body-less acknowledgment in one batch, nothing archived
      before them.  Upserted in turn they would leave it. */
  lemma BodyLost()
    ensures var a := Message("r", "m", 1, Insert, Some("hello"), false);
            var b := Message("r", "m", 2, Acknowledge, None, false);
            var batch := [a, b];
            var verdicts := [Superseded, Apply];
            && Planned(batch, map[], verdicts)
            && At(Written(map[], batch, verdicts), "m") == Some(Row("r", "", true, 2))
            && At(InTurn(map[], batch), "m") == Some(Row("r", "hello", true, 2))
  {
    var a, b := Message("r", "m", 1, Insert, Some("hello"), false), Message("r", "m", 2, Acknowledge, None, false);
    var batch, verdicts := [a, b], [Superseded, Apply];
    assert IsBest(batch, 1);
    forall i, j | 0 <= i < |batch| && IsBest(batch, j) && batch[j].id == batch[i].id
      ensures verdicts[i] == VerdictOf(batch, map[], i, j)
    {
      BestIsOne(batch, j, 1);
    }
    PassRow(map[], batch, map[], verdicts, 1);
    assert batch[..1] == [a] && [a][..0] == [];
    assert InTurn(map[], [a]) == Upsert(map[], a);
  }
}
