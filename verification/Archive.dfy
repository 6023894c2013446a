/**
 The archive of the relay mailbox behind a queue that delivers at least once: a batch is planned
 against what the table held when it was read, and the messages that apply are upserted under a guard.
 */
module Archive {
  import opened Prelude

  datatype Change = Insert | Acknowledge

  /** One change of one row. */
  datatype Message = Message(
    recipient: string, id: string, version: nat, change: Change, body: Option<string>, inHub: bool)

  datatype Row = Row(recipient: string, body: string, acked: bool, version: nat)

  type Table = map<string, Row>

  /** What the held read answers of a row. */
  datatype Held = Held(recipient: string, version: nat)

  datatype Verdict = Apply | Repeat | Superseded | Collision

  function Text(m: Message): (s: string) {
    if m.body.Some? then m.body.value else ""
  }

  /** The row a message leaves.  Only the holder's own newer version moves a row there is, and moving it
      clears no acknowledgment and empties no body. */
  function UpsertRow(row: Option<Row>, m: Message): (r: Row) {
    if row.None? then Row(m.recipient, Text(m), m.change.Acknowledge?, m.version)
    else if m.version > row.value.version && row.value.recipient == m.recipient then
      Row(row.value.recipient, if Text(m) != "" then Text(m) else row.value.body,
          row.value.acked || m.change.Acknowledge?, m.version)
    else row.value
  }

  function At(t: Table, id: string): (r: Option<Row>) {
    if id in t then Some(t[id]) else None
  }

  function Upsert(t: Table, m: Message): (r: Table) {
    t[m.id := UpsertRow(At(t, m.id), m)]
  }

  /** Each message's upsert in turn: the plain archive, with no plan. */
  function InTurn(t: Table, msgs: seq<Message>): (r: Table) {
    if msgs == [] then t else Upsert(InTurn(t, msgs[..|msgs| - 1]), msgs[|msgs| - 1])
  }

  // -------------------------------------------------------------------------
  // The plan
  // -------------------------------------------------------------------------

  /** The messages naming one id the batch is judged by: the highest version, the earliest of equals. */
  ghost predicate IsBest(batch: seq<Message>, b: int) {
    && 0 <= b < |batch|
    && forall j :: 0 <= j < |batch| && batch[j].id == batch[b].id ==>
         batch[j].version < batch[b].version || (batch[j].version == batch[b].version && b <= j)
  }

  lemma BestIsOne(batch: seq<Message>, b: nat, b': nat)
    requires IsBest(batch, b) && IsBest(batch, b') && batch[b].id == batch[b'].id
    ensures b == b'
  {
  }

  /** The verdict on message `i`, whose id's best is `b`. */
  function VerdictOf(batch: seq<Message>, held: map<string, Held>, i: nat, b: nat): (v: Verdict)
    requires i < |batch| && b < |batch|
  {
    var m := batch[i];
    var owner := if m.id in held then held[m.id].recipient else batch[b].recipient;
    if m.recipient != owner then Collision
    else if b != i then Superseded
    else if m.id in held && held[m.id].version >= m.version then Repeat
    else Apply
  }

  /** The verdicts are the plan of the batch against what was held. */
  ghost predicate Planned(batch: seq<Message>, held: map<string, Held>, verdicts: seq<Verdict>) {
    && |verdicts| == |batch|
    && forall i, b :: 0 <= i < |batch| && IsBest(batch, b) && batch[b].id == batch[i].id ==>
         verdicts[i] == VerdictOf(batch, held, i, b)
  }

  /** The best of each id, by id. */
  ghost predicate BestMap(batch: seq<Message>, best: map<string, nat>) {
    && (forall i :: 0 <= i < |batch| ==> batch[i].id in best)
    && (forall id :: id in best ==> IsBest(batch, best[id]) && batch[best[id]].id == id)
  }

  lemma BestMapStep(batch: seq<Message>, i: nat, best: map<string, nat>, best': map<string, nat>)
    requires i < |batch| && BestMap(batch[..i], best)
    requires var m := batch[i];
             best' == if m.id in best && m.version <= batch[best[m.id]].version then best else best[m.id := i]
    ensures BestMap(batch[..i + 1], best')
  {
    var was, now, m := batch[..i], batch[..i + 1], batch[i];
    assert now == was + [m];
    forall id | id in best' ensures IsBest(now, best'[id]) && now[best'[id]].id == id {
      if id in best { assert IsBest(was, best[id]) && was[best[id]].id == id; }
    }
  }

  /** One verdict per message, in order. */
  method Plan(batch: seq<Message>, held: map<string, Held>) returns (verdicts: seq<Verdict>, best: map<string, nat>)
    ensures Planned(batch, held, verdicts) && BestMap(batch, best)
  {
    best := map[];
    for i := 0 to |batch|
      invariant BestMap(batch[..i], best)
    {
      var m := batch[i];
      ghost var was := best;
      if m.id in best {
        if m.version > batch[best[m.id]].version {
          best := best[m.id := i];
        }
      } else {
        best := best[m.id := i];
      }
      BestMapStep(batch, i, was, best);
    }
    assert batch[..|batch|] == batch;
    verdicts := [];
    for i := 0 to |batch|
      invariant |verdicts| == i
      invariant forall k :: 0 <= k < i ==> verdicts[k] == VerdictOf(batch, held, k, best[batch[k].id])
    {
      verdicts := verdicts + [VerdictOf(batch, held, i, best[batch[i].id])];
    }
    forall i, b | 0 <= i < |batch| && IsBest(batch, b) && batch[b].id == batch[i].id
      ensures verdicts[i] == VerdictOf(batch, held, i, b)
    {
      BestIsOne(batch, b, best[batch[i].id]);
    }
  }

  /** What each verdict of a plan says, the message its id is judged by written out: the highest version, the
      earliest of equals. */
  lemma VerdictsAre(batch: seq<Message>, held: map<string, Held>, verdicts: seq<Verdict>, i: nat)
    requires Planned(batch, held, verdicts) && i < |batch|
    ensures var m := batch[i];
      var first := forall j :: 0 <= j < |batch| && batch[j].id == m.id ==>
                     batch[j].version < m.version || (batch[j].version == m.version && i <= j);
      && (verdicts[i].Apply? <==>
            first && (m.id in held ==> held[m.id].recipient == m.recipient && held[m.id].version < m.version))
      && (verdicts[i].Repeat? <==>
            first && m.id in held && held[m.id].recipient == m.recipient && held[m.id].version >= m.version)
      && (m.id in held ==> (verdicts[i].Collision? <==> held[m.id].recipient != m.recipient))
    ensures exists b :: 0 <= b < |batch| && IsBest(batch, b) && batch[b].id == batch[i].id
                        && (batch[i].id !in held ==>
                              (verdicts[i].Collision? <==> batch[b].recipient != batch[i].recipient))
  {
    var b := BestExists(batch, i);
    assert verdicts[i] == VerdictOf(batch, held, i, b);
  }

  lemma {:induction false} BestExists(batch: seq<Message>, i: nat) returns (b: nat)
    requires i < |batch|
    ensures IsBest(batch, b) && batch[b].id == batch[i].id && batch[b].version >= batch[i].version
    decreases |batch|
  {
    var n := |batch| - 1;
    var init := batch[..n];
    if i == n && (forall j :: 0 <= j < n ==> batch[j].id != batch[n].id) {
      b := n;
    } else {
      var k: nat := i;
      if i == n {
        k :| 0 <= k < n && batch[k].id == batch[n].id;
      }
      var b' := BestExists(init, k);
      b := if batch[n].id == batch[b'].id && batch[n].version > batch[b'].version then n else b';
      forall j | 0 <= j < |batch| && batch[j].id == batch[b].id
        ensures batch[j].version < batch[b].version || (batch[j].version == batch[b].version && b <= j)
      {
        if j < n { assert init[j] == batch[j]; }
      }
    }
  }

  // -------------------------------------------------------------------------
  // A written pass
  // -------------------------------------------------------------------------

  function HeldOf(t: Table): (h: map<string, Held>) {
    map id | id in t :: Held(t[id].recipient, t[id].version)
  }

  /** The messages that apply, upserted in order, in one write. */
  function Written(t: Table, batch: seq<Message>, verdicts: seq<Verdict>): (r: Table)
    requires |verdicts| == |batch|
  {
    if batch == [] then t else
    var n := |batch| - 1;
    var before := Written(t, batch[..n], verdicts[..n]);
    if verdicts[n].Apply? then Upsert(before, batch[n]) else before
  }

  /** A batch planned against what was read, and its messages that apply written: all of them, or none. */
  method ArchiveBatch(t: Table, held: map<string, Held>, batch: seq<Message>, lands: bool)
    returns (t': Table, verdicts: seq<Verdict>)
    ensures Planned(batch, held, verdicts)
    ensures t' == if lands then Written(t, batch, verdicts) else t
  {
    var best;
    verdicts, best := Plan(batch, held);
    t' := t;
    if !lands { return; }
    for i := 0 to |batch|
      invariant t' == Written(t, batch[..i], verdicts[..i])
    {
      assert batch[..i + 1][..i] == batch[..i] && verdicts[..i + 1][..i] == verdicts[..i];
      if verdicts[i].Apply? { t' := Upsert(t', batch[i]); }
    }
    assert batch[..|batch|] == batch && verdicts[..|batch|] == verdicts;
  }

  /** Of the messages of one id at most the best applies, so a pass moves a row by at most one upsert. */
  lemma {:induction false} WrittenRow(t: Table, batch: seq<Message>, verdicts: seq<Verdict>, id: string, n: nat)
    requires |verdicts| == |batch| && n <= |batch|
    requires forall i, j :: 0 <= i < j < |batch| && batch[i].id == batch[j].id == id ==>
      !(verdicts[i].Apply? && verdicts[j].Apply?)
    ensures var t' := Written(t, batch[..n], verdicts[..n]);
            && (forall i :: 0 <= i < n && batch[i].id == id && verdicts[i].Apply? ==>
                  At(t', id) == Some(UpsertRow(At(t, id), batch[i])))
            && ((forall i :: 0 <= i < n && batch[i].id == id ==> !verdicts[i].Apply?) ==> At(t', id) == At(t, id))
  {
    if n > 0 {
      WrittenRow(t, batch, verdicts, id, n - 1);
      assert batch[..n][..n - 1] == batch[..n - 1] && verdicts[..n][..n - 1] == verdicts[..n - 1];
    }
  }

  /** What a planned pass leaves under an id its batch names: the best's upsert when the best applies,
      and otherwise what was there. */
  lemma PassRow(t: Table, batch: seq<Message>, held: map<string, Held>, verdicts: seq<Verdict>, b: nat)
    requires Planned(batch, held, verdicts) && IsBest(batch, b)
    ensures At(Written(t, batch, verdicts), batch[b].id)
            == if VerdictOf(batch, held, b, b).Apply? then Some(UpsertRow(At(t, batch[b].id), batch[b]))
                else At(t, batch[b].id)
  {
    var id := batch[b].id;
    forall i | 0 <= i < |batch| && batch[i].id == id && i != b ensures !verdicts[i].Apply? {
      assert verdicts[i] == VerdictOf(batch, held, i, b);
    }
    assert verdicts[b] == VerdictOf(batch, held, b, b);
    WrittenRow(t, batch, verdicts, id, |batch|);
    assert batch[..|batch|] == batch && verdicts[..|verdicts|] == verdicts;
  }

  /** The row a landed pass leaves under an id, written out: the best's when it applies to what was read as held.  It
      makes the row, or moves its own older one, clearing no acknowledgment and emptying no body. */
  lemma PassLeaves(t: Table, batch: seq<Message>, held: map<string, Held>, verdicts: seq<Verdict>, b: nat)
    requires Planned(batch, held, verdicts) && IsBest(batch, b)
    ensures var m, after := batch[b], Written(t, batch, verdicts);
      if m.id in held && (held[m.id].recipient != m.recipient || held[m.id].version >= m.version) then
        At(after, m.id) == At(t, m.id)
      else if m.id !in t then
        && m.id in after && after[m.id].recipient == m.recipient && after[m.id].version == m.version
        && (after[m.id].acked <==> m.change == Acknowledge)
        && after[m.id].body == if m.body.Some? then m.body.value else ""
      else if t[m.id].recipient == m.recipient && t[m.id].version < m.version then
        && m.id in after && after[m.id].recipient == m.recipient && after[m.id].version == m.version
        && (after[m.id].acked <==> t[m.id].acked || m.change == Acknowledge)
        && after[m.id].body == if m.body.Some? && m.body.value != "" then m.body.value else t[m.id].body
      else m.id in after && after[m.id] == t[m.id]
  {
    PassRow(t, batch, held, verdicts, b);
  }

  lemma PassLeavesAlone(t: Table, batch: seq<Message>, verdicts: seq<Verdict>, id: string)
    requires |verdicts| == |batch| && forall i :: 0 <= i < |batch| ==> batch[i].id != id
    ensures At(Written(t, batch, verdicts), id) == At(t, id)
  {
    WrittenRow(t, batch, verdicts, id, |batch|);
    assert batch[..|batch|] == batch && verdicts[..|verdicts|] == verdicts;
  }

  // -------------------------------------------------------------------------
  // Nothing moves a row backwards
  // -------------------------------------------------------------------------

  /** No row is lost or handed to another recipient, no version falls, no acknowledgment is cleared. */
  ghost predicate Forward(t: Table, t': Table) {
    forall id :: id in t ==>
      && id in t' && t'[id].recipient == t[id].recipient && t'[id].version >= t[id].version
      && (t[id].acked ==> t'[id].acked)
  }

  /** Whatever the plan, whatever it was planned on, whoever sent the messages. */
  lemma {:induction false} WrittenForward(t: Table, batch: seq<Message>, verdicts: seq<Verdict>)
    requires |verdicts| == |batch|
    ensures Forward(t, Written(t, batch, verdicts))
  {
    if batch != [] {
      WrittenForward(t, batch[..|batch| - 1], verdicts[..|batch| - 1]);
    }
  }

  // -------------------------------------------------------------------------
  // What the hubs are told is so
  // -------------------------------------------------------------------------

  /** The table holds the message's row for its recipient, at its version or a newer one. */
  predicate Covered(t: Table, m: Message) {
    m.id in t && t[m.id].recipient == m.recipient && t[m.id].version >= m.version
  }

  /**
   Whatever the pass was planned on, a message reported without a collision is held as reported if and
   only if the row is its recipient's and stood at its version, or the batch's best of the id is its
   recipient's and applies to a row that is not another's.
   */
  lemma ReportSoundExactly(t: Table, batch: seq<Message>, held: map<string, Held>, verdicts: seq<Verdict>, i: nat,
                           b: nat)
    requires Planned(batch, held, verdicts) && i < |batch|
    requires IsBest(batch, b) && batch[b].id == batch[i].id && !verdicts[i].Collision?
    ensures var m := batch[i];
            var wins := verdicts[b].Apply? && batch[b].recipient == m.recipient;
            Covered(Written(t, batch, verdicts), m) <==>
              if m.id in t then t[m.id].recipient == m.recipient && (m.version <= t[m.id].version || wins) else wins
  {
    PassRow(t, batch, held, verdicts, b);
    assert verdicts[i] == VerdictOf(batch, held, i, b) && verdicts[b] == VerdictOf(batch, held, b, b);
  }

  /** What was read as held is behind the table: no row of another, no version ahead. */
  predicate Behind(held: map<string, Held>, t: Table, id: string) {
    id in held ==> id in t && held[id].recipient == t[id].recipient && held[id].version <= t[id].version
  }

  /** On a read behind the table the same comes down to what the read said.  Of an id it held: the best is the
      holder's, or the table stood there.  Of an id it did not: no row of another has come since. */
  lemma ReportSoundBehind(t: Table, batch: seq<Message>, held: map<string, Held>, verdicts: seq<Verdict>, i: nat,
                          b: nat)
    requires Planned(batch, held, verdicts) && i < |batch| && Behind(held, t, batch[i].id)
    requires IsBest(batch, b) && batch[b].id == batch[i].id && !verdicts[i].Collision?
    ensures var m := batch[i];
            Covered(Written(t, batch, verdicts), m) <==>
              if m.id in held then batch[b].recipient == t[m.id].recipient || m.version <= t[m.id].version
              else m.id !in t || t[m.id].recipient == m.recipient
  {
    ReportSoundExactly(t, batch, held, verdicts, i, b);
    assert verdicts[i] == VerdictOf(batch, held, i, b) && verdicts[b] == VerdictOf(batch, held, b, b);
  }

  /** The report that is not so: the holder's own newer version beside a stranger's still newer one. */
  lemma ReportUnsound()
    ensures var t: Table := map["m" := Row("holder", "hello", false, 1)];
            var mine := Message("holder", "m", 2, Acknowledge, None, false);
            var theirs := Message("other", "m", 3, Acknowledge, None, false);
            var verdicts := [Superseded, Collision];
            Planned([mine, theirs], HeldOf(t), verdicts) && !Covered(Written(t, [mine, theirs], verdicts), mine)
  {
    var t: Table := map["m" := Row("holder", "hello", false, 1)];
    var mine := Message("holder", "m", 2, Acknowledge, None, false);
    var theirs := Message("other", "m", 3, Acknowledge, None, false);
    var batch, verdicts := [mine, theirs], [Superseded, Collision];
    assert IsBest(batch, 1);
    forall i, b | 0 <= i < |batch| && IsBest(batch, b) && batch[b].id == batch[i].id
      ensures verdicts[i] == VerdictOf(batch, HeldOf(t), i, b)
    {
      BestIsOne(batch, b, 1);
    }
    ReportSoundBehind(t, batch, HeldOf(t), verdicts, 0, 1);
  }
}
