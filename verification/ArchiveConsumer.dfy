/**
 The queue's handler: every message of a batch is settled exactly once, on every path, and each hub
 is told of its own messages only, in order.
 */
module ArchiveConsumer {
  import opened Prelude
  import opened Archive

  // -------------------------------------------------------------------------
  // Lists by recipient
  // -------------------------------------------------------------------------

  datatype Group<T> = Group(recipient: string, items: seq<T>)

  predicate OneEach<T>(groups: seq<Group<T>>) {
    forall i, j :: 0 <= i < j < |groups| ==> groups[i].recipient != groups[j].recipient
  }

  function Recipients<T>(groups: seq<Group<T>>): (r: seq<string>) {
    if groups == [] then [] else Recipients(groups[..|groups| - 1]) + [groups[|groups| - 1].recipient]
  }

  /** The list of a recipient, empty when there is none. */
  function ListFor<T>(groups: seq<Group<T>>, recipient: string): (r: seq<T>) {
    if groups == [] then []
    else if groups[0].recipient == recipient then groups[0].items
    else ListFor(groups[1..], recipient)
  }

  lemma {:induction false} ListAt<T>(groups: seq<Group<T>>, i: nat)
    requires OneEach(groups) && i < |groups|
    ensures ListFor(groups, groups[i].recipient) == groups[i].items
  {
    if i > 0 {
      ListAt(groups[1..], i - 1);
    }
  }

  lemma {:induction false} ListNowhere<T>(groups: seq<Group<T>>, recipient: string)
    requires forall i :: 0 <= i < |groups| ==> groups[i].recipient != recipient
    ensures ListFor(groups, recipient) == []
  {
    if groups != [] {
      ListNowhere(groups[1..], recipient);
    }
  }

  lemma {:induction false} ListAppended<T>(groups: seq<Group<T>>, g: Group<T>, recipient: string)
    requires forall i :: 0 <= i < |groups| ==> groups[i].recipient != g.recipient
    ensures ListFor(groups + [g], recipient) == if recipient == g.recipient then g.items else ListFor(groups, recipient)
  {
    if groups != [] {
      ListAppended(groups[1..], g, recipient);
      assert (groups + [g])[1..] == groups[1..] + [g];
    }
  }

  lemma {:induction false} ListUpdated<T>(groups: seq<Group<T>>, i: nat, items: seq<T>, recipient: string)
    requires OneEach(groups) && i < |groups|
    ensures ListFor(groups[i := Group(groups[i].recipient, items)], recipient)
            == if recipient == groups[i].recipient then items else ListFor(groups, recipient)
  {
    var groups' := groups[i := Group(groups[i].recipient, items)];
    if i > 0 {
      assert groups'[1..] == groups[1..][i - 1 := Group(groups[i].recipient, items)];
      ListUpdated(groups[1..], i - 1, items, recipient);
    } else {
      assert groups'[1..] == groups[1..];
    }
  }

  lemma {:induction false} RecipientsUpdated<T>(groups: seq<Group<T>>, i: nat, items: seq<T>)
    requires i < |groups|
    ensures Recipients(groups[i := Group(groups[i].recipient, items)]) == Recipients(groups)
    decreases |groups|
  {
    var n := |groups| - 1;
    var groups' := groups[i := Group(groups[i].recipient, items)];
    if i == n {
      assert groups'[..n] == groups[..n];
    } else {
      assert groups'[..n] == groups[..n][i := Group(groups[i].recipient, items)];
      RecipientsUpdated(groups[..n], i, items);
    }
  }

  lemma {:induction false} RecipientsAre<T>(groups: seq<Group<T>>)
    ensures |Recipients(groups)| == |groups|
    ensures forall i :: 0 <= i < |groups| ==> Recipients(groups)[i] == groups[i].recipient
  {
    if groups != [] {
      RecipientsAre(groups[..|groups| - 1]);
    }
  }

  /** An item pushed to its recipient's list, or to a new list at the end. */
  method Push<T>(groups: seq<Group<T>>, recipient: string, item: T) returns (groups': seq<Group<T>>)
    requires OneEach(groups)
    ensures OneEach(groups')
    ensures forall q :: ListFor(groups', q) == ListFor(groups, q) + (if q == recipient then [item] else [])
    ensures Recipients(groups') == if recipient in Recipients(groups) then Recipients(groups)
      else Recipients(groups) + [recipient]
  {
    RecipientsAre(groups);
    var i := 0;
    while i < |groups| && groups[i].recipient != recipient
      invariant 0 <= i <= |groups|
      invariant forall k :: 0 <= k < i ==> groups[k].recipient != recipient
    {
      i := i + 1;
    }
    if i < |groups| {
      var items := groups[i].items + [item];
      groups' := groups[i := Group(recipient, items)];
      ListAt(groups, i);
      RecipientsUpdated(groups, i, items);
      assert Recipients(groups)[i] == recipient;
      forall q ensures ListFor(groups', q) == ListFor(groups, q) + (if q == recipient then [item] else []) {
        ListUpdated(groups, i, items, q);
      }
    } else {
      groups' := groups + [Group(recipient, [item])];
      assert groups'[..|groups|] == groups;
      ListNowhere(groups, recipient);
      forall q ensures ListFor(groups', q) == ListFor(groups, q) + (if q == recipient then [item] else []) {
        ListAppended(groups, Group(recipient, [item]), q);
      }
    }
  }

  // -------------------------------------------------------------------------
  // What each hub is told
  // -------------------------------------------------------------------------

  datatype Done = Done(id: string, version: nat, collision: bool)

  function DoneOf(m: Message, v: Verdict): (d: Done) {
    Done(m.id, m.version, v.Collision?)
  }

  /** A recipient's own messages of the batch, in order. */
  function Reports(batch: seq<Message>, verdicts: seq<Verdict>, recipient: string): (r: seq<Done>)
    requires |verdicts| == |batch|
  {
    if batch == [] then [] else
    var n := |batch| - 1;
    Reports(batch[..n], verdicts[..n], recipient)
    + (if batch[n].recipient == recipient then [DoneOf(batch[n], verdicts[n])] else [])
  }

  /** A report of a message: a collision just when the row it names was held by another or, where none was held, the
      message its id is judged by is another's. */
  ghost predicate Tells(batch: seq<Message>, held: map<string, Held>, m: Message, told: Done) {
    && told.id == m.id && told.version == m.version
    && (m.id in held ==> (told.collision <==> held[m.id].recipient != m.recipient))
    && (m.id !in held ==> forall b :: IsBest(batch, b) && batch[b].id == m.id ==>
          (told.collision <==> batch[b].recipient != m.recipient))
  }

  lemma ReportTells(batch: seq<Message>, held: map<string, Held>, verdicts: seq<Verdict>, i: nat)
    requires Planned(batch, held, verdicts) && i < |batch|
    ensures Tells(batch, held, batch[i], DoneOf(batch[i], verdicts[i]))
  {
    var b := BestExists(batch, i);
    assert verdicts[i] == VerdictOf(batch, held, i, b);
  }

  /** What a planned pass tells a recipient, message by message: one of its own adds its report, one of another's
      nothing. */
  lemma ReportsAre(batch: seq<Message>, held: map<string, Held>, verdicts: seq<Verdict>, recipient: string, i: nat)
    requires Planned(batch, held, verdicts) && i < |batch|
    ensures var before := Reports(batch[..i], verdicts[..i], recipient);
      var upTo := Reports(batch[..i + 1], verdicts[..i + 1], recipient);
      && upTo <= Reports(batch, verdicts, recipient)
      && |upTo| == |before| + (if batch[i].recipient == recipient then 1 else 0)
      && (batch[i].recipient == recipient ==>
            Tells(batch, held, batch[i], Reports(batch, verdicts, recipient)[|before|]))
  {
    assert batch[..i + 1][..i] == batch[..i] && verdicts[..i + 1][..i] == verdicts[..i];
    ReportTells(batch, held, verdicts, i);
    ReportsPrefix(batch, verdicts, recipient, i + 1);
  }

  lemma {:induction false} ReportsPrefix(batch: seq<Message>, verdicts: seq<Verdict>, recipient: string, n: nat)
    requires |verdicts| == |batch| && n <= |batch|
    ensures Reports(batch[..n], verdicts[..n], recipient) <= Reports(batch, verdicts, recipient)
  {
    if n == |batch| {
      assert batch[..n] == batch && verdicts[..n] == verdicts;
    } else {
      var init := |batch| - 1;
      assert batch[..init][..n] == batch[..n] && verdicts[..init][..n] == verdicts[..n];
      ReportsPrefix(batch[..init], verdicts[..init], recipient, n);
    }
  }

  /** The strings in the order they first appear. */
  function Appearances(names: seq<string>): (r: seq<string>) {
    if names == [] then [] else
    var n := |names| - 1;
    var before := Appearances(names[..n]);
    if names[n] in before then before else before + [names[n]]
  }

  function RecipientNames(batch: seq<Message>): (r: seq<string>)
    ensures |r| == |batch| && forall i :: 0 <= i < |batch| ==> r[i] == batch[i].recipient
  {
    seq(|batch|, i requires 0 <= i < |batch| => batch[i].recipient)
  }

  /** The batch partitioned by recipient: each list is the recipient's own, and the lists come in the
      order the recipients first appear. */
  method DoneByRecipient(batch: seq<Message>, verdicts: seq<Verdict>) returns (out: seq<Group<Done>>)
    requires |verdicts| == |batch|
    ensures OneEach(out)
    ensures forall q :: ListFor(out, q) == Reports(batch, verdicts, q)
    ensures Recipients(out) == Appearances(RecipientNames(batch))
  {
    out := [];
    for i := 0 to |batch|
      invariant OneEach(out)
      invariant forall q :: ListFor(out, q) == Reports(batch[..i], verdicts[..i], q)
      invariant Recipients(out) == Appearances(RecipientNames(batch[..i]))
    {
      var m, v := batch[i], verdicts[i];
      assert batch[..i + 1][..i] == batch[..i] && verdicts[..i + 1][..i] == verdicts[..i];
      assert RecipientNames(batch[..i + 1])[..i] == RecipientNames(batch[..i]);
      out := Push(out, m.recipient, DoneOf(m, v));
    }
    assert batch[..|batch|] == batch && verdicts[..|batch|] == verdicts;
  }

  // -------------------------------------------------------------------------
  // Bodies left in the hub
  // -------------------------------------------------------------------------

  predicate Bodyless(m: Message) {
    m.inHub && m.body.None?
  }

  /** The places of a recipient's messages whose body stayed in its hub, in order. */
  function PlacesFor(batch: seq<Message>, recipient: string): (r: seq<nat>) {
    if batch == [] then [] else
    var n := |batch| - 1;
    PlacesFor(batch[..n], recipient) + (if Bodyless(batch[n]) && batch[n].recipient == recipient then [n] else [])
  }

  lemma {:induction false} PlacesAre(batch: seq<Message>, recipient: string)
    ensures forall j: nat :: j in PlacesFor(batch, recipient) <==>
      j < |batch| && Bodyless(batch[j]) && batch[j].recipient == recipient
    ensures forall a, b :: 0 <= a < b < |PlacesFor(batch, recipient)| ==>
      PlacesFor(batch, recipient)[a] < PlacesFor(batch, recipient)[b]
  {
    if batch != [] {
      var init := batch[..|batch| - 1];
      PlacesAre(init, recipient);
      var places := PlacesFor(init, recipient);
      assert forall a :: 0 <= a < |places| ==> places[a] in places;
    }
  }

  method BodiesInHub(batch: seq<Message>) returns (out: seq<Group<nat>>)
    ensures OneEach(out)
    ensures forall q :: ListFor(out, q) == PlacesFor(batch, q)
  {
    out := [];
    for i := 0 to |batch|
      invariant OneEach(out)
      invariant forall q :: ListFor(out, q) == PlacesFor(batch[..i], q)
    {
      assert batch[..i + 1][..i] == batch[..i];
      if Bodyless(batch[i]) {
        out := Push(out, batch[i].recipient, i);
      }
    }
    assert batch[..|batch|] == batch;
  }

  // -------------------------------------------------------------------------
  // The handler
  // -------------------------------------------------------------------------

  /** A queue message: what it parses to, if anything; one that names no box or no sender parses to nothing. */
  type Raw = Option<Message>

  /** A message the consumer can do something with. */
  predicate WellFormed(m: Message) {
    m.version > 0 && m.recipient != "" && m.id != "" && (m.change.Insert? ==> m.body.Some? || m.inHub)
  }

  predicate Malformed(raw: Raw) {
    raw.None? || !WellFormed(raw.value)
  }

  /** What a hub holds of the ids it is asked for: their bodies, when it has them. */
  type HubRows = map<string, Option<string>>

  /** The hubs that answer; a recipient that is not here is a hub that could not be read. */
  type Hubs = map<string, HubRows>

  datatype Decision = Keep(m: Message) | Gone | Unread

  function Decide(m: Message, hubs: Hubs): (d: Decision) {
    if !Bodyless(m) then Keep(m)
    else if m.recipient !in hubs then Unread
    else if m.id in hubs[m.recipient] && hubs[m.recipient][m.id].Some? then Keep(m.(body := hubs[m.recipient][m.id]))
    else Gone
  }

  datatype Receipt = Receipt(acks: int, retries: int)

  const UNSETTLED := Receipt(0, 0)

  /** How a message ends: acknowledged when it is malformed, gone from its hub, or in a pass that was
      written; retried when its hub could not be read or the pass was not written. */
  function Fate(raw: Raw, hubs: Hubs, written: bool): (r: Receipt)
    ensures r.acks + r.retries == 1 && r.acks >= 0 && r.retries >= 0
    ensures r.acks == 1 <==>
      Malformed(raw) || Decide(raw.value, hubs).Gone? || (Decide(raw.value, hubs).Keep? && written)
  {
    if Malformed(raw) then Receipt(1, 0)
    else match Decide(raw.value, hubs)
      case Gone => Receipt(1, 0)
      case Unread => Receipt(0, 1)
      case Keep(_) => if written then Receipt(1, 0) else Receipt(0, 1)
  }

  /** The messages a write pass is given, in the queue's order, with the bodies their hubs held. */
  function KeptOf(raws: seq<Raw>, hubs: Hubs): (r: seq<Message>) {
    if raws == [] then [] else
    var n := |raws| - 1;
    KeptOf(raws[..n], hubs)
    + (if !Malformed(raws[n]) && Decide(raws[n].value, hubs).Keep? then [Decide(raws[n].value, hubs).m] else [])
  }

  /** The message is whole, and its body came along, is not awaited, or is held by a hub that answered. */
  predicate Kept(raw: Raw, hubs: Hubs) {
    && raw.Some?
    && var m := raw.value;
       && m.version > 0 && m.recipient != "" && m.id != "" && (m.change.Acknowledge? || m.body.Some? || m.inHub)
       && (m.body.Some? || !m.inHub
           || (m.recipient in hubs && m.id in hubs[m.recipient] && hubs[m.recipient][m.id].Some?))
  }

  /** The pass, message by message of the queue: one kept adds itself, with the very body its hub holds when the
      body stayed there, and any other adds nothing. */
  lemma KeptAre(raws: seq<Raw>, hubs: Hubs, i: nat)
    requires i < |raws|
    ensures var before, upTo := KeptOf(raws[..i], hubs), KeptOf(raws[..i + 1], hubs);
      && upTo <= KeptOf(raws, hubs) && |upTo| == |before| + (if Kept(raws[i], hubs) then 1 else 0)
      && (Kept(raws[i], hubs) ==>
            var m, kept := raws[i].value, KeptOf(raws, hubs)[|before|];
            kept == if m.body.Some? || !m.inHub then m else m.(body := hubs[m.recipient][m.id]))
  {
    assert raws[..i + 1][..i] == raws[..i];
    KeptOne(raws[i], hubs);
    KeptPrefix(raws, hubs, i + 1);
  }

  lemma {:induction false} KeptPrefix(raws: seq<Raw>, hubs: Hubs, n: nat)
    requires n <= |raws|
    ensures KeptOf(raws[..n], hubs) <= KeptOf(raws, hubs)
  {
    if n == |raws| {
      assert raws[..n] == raws;
    } else {
      assert raws[..|raws| - 1][..n] == raws[..n];
      KeptPrefix(raws[..|raws| - 1], hubs, n);
    }
  }

  lemma KeptOne(raw: Raw, hubs: Hubs)
    ensures Kept(raw, hubs) <==> !Malformed(raw) && Decide(raw.value, hubs).Keep?
    ensures Kept(raw, hubs) ==>
      var m := raw.value;
      Decide(m, hubs).m == if m.body.Some? || !m.inHub then m else m.(body := hubs[m.recipient][m.id])
  {
  }

  /** The queue's messages as they are settled. */
  class Queue {
    var receipts: seq<Receipt>

    constructor (n: nat)
      ensures |receipts| == n && forall i :: 0 <= i < n ==> receipts[i] == UNSETTLED
    {
      receipts := seq(n, _ => UNSETTLED);
    }

    method Ack(i: nat)
      requires i < |receipts|
      modifies this
      ensures receipts == old(receipts)[i := Receipt(old(receipts)[i].acks + 1, old(receipts)[i].retries)]
    {
      receipts := receipts[i := Receipt(receipts[i].acks + 1, receipts[i].retries)];
    }

    method Retry(i: nat)
      requires i < |receipts|
      modifies this
      ensures receipts == old(receipts)[i := Receipt(old(receipts)[i].acks, old(receipts)[i].retries + 1)]
    {
      receipts := receipts[i := Receipt(receipts[i].acks, receipts[i].retries + 1)];
    }
  }

  /** Where a parsed message stands once its hub has been asked, or before. */
  predicate Stands(first: Message, hubs: Hubs, asked: bool, m: Message, keep: bool, receipt: Receipt) {
    if !asked then m == first && keep && receipt == UNSETTLED
    else match Decide(first, hubs)
      case Keep(filled) => m == filled && keep && receipt == UNSETTLED
      case Gone => !keep && receipt == Receipt(1, 0)
      case Unread => !keep && receipt == Receipt(0, 1)
  }

  /** The parsed messages and their places in the queue, one beside the other. */
  predicate Aligned(raws: seq<Raw>, places: seq<nat>, msgs: seq<Message>) {
    && |places| == |msgs|
    && (forall j :: 0 <= j < |places| ==>
          places[j] < |raws| && !Malformed(raws[places[j]]) && raws[places[j]].value == msgs[j])
    && (forall j, k :: 0 <= j < k < |places| ==> places[j] < places[k])
  }

  /** Every place of the queue is accounted for: malformed and acknowledged, or a parsed message where
      it stands. */
  ghost predicate Board(raws: seq<Raw>, places: seq<nat>, firsts: seq<Message>, hubs: Hubs, asked: set<nat>,
                        msgs: seq<Message>, keep: seq<bool>, receipts: seq<Receipt>)
  {
    && Aligned(raws, places, firsts) && |msgs| == |keep| == |firsts| && |receipts| == |raws|
    && (forall i :: 0 <= i < |raws| && Malformed(raws[i]) ==> receipts[i] == Receipt(1, 0))
    && (forall j: nat :: j < |firsts| ==> Stands(firsts[j], hubs, j in asked, msgs[j], keep[j], receipts[places[j]]))
  }

  /** One message's hub has answered, or could not. */
  method SettleOne(q: Queue, raws: seq<Raw>, places: seq<nat>, ghost firsts: seq<Message>, hubs: Hubs,
                   ghost asked: set<nat>,
                   msgs: seq<Message>, keep: seq<bool>, j: nat) returns (msgs': seq<Message>, keep': seq<bool>)
    requires Board(raws, places, firsts, hubs, asked, msgs, keep, q.receipts)
    requires j < |firsts| && j !in asked && Bodyless(firsts[j])
    modifies q
    ensures Board(raws, places, firsts, hubs, asked + {j}, msgs', keep', q.receipts)
  {
    msgs', keep' := msgs, keep;
    assert Stands(firsts[j], hubs, false, msgs[j], keep[j], q.receipts[places[j]]);
    var m := msgs[j];
    if m.recipient !in hubs {
      q.Retry(places[j]);
      keep' := keep[j := false];
    } else {
      var rows := hubs[m.recipient];
      if m.id in rows && rows[m.id].Some? {
        msgs' := msgs[j := m.(body := rows[m.id])];
      } else {
        q.Ack(places[j]);
        keep' := keep[j := false];
      }
    }
    forall k: nat | k < |firsts| && k != j
      ensures Stands(firsts[k], hubs, k in asked + {j}, msgs'[k], keep'[k], q.receipts[places[k]])
    {
      assert Stands(firsts[k], hubs, k in asked, msgs[k], keep[k], old(q.receipts)[places[k]]);
      assert places[k] != places[j];
    }
  }

  /** Every hub asked for the bodies that stayed with it. */
  method FillBodies(q: Queue, raws: seq<Raw>, places: seq<nat>, firsts: seq<Message>, hubs: Hubs)
    returns (msgs: seq<Message>, keep: seq<bool>, ghost asked: set<nat>)
    requires Board(raws, places, firsts, hubs, {}, firsts, seq(|firsts|, _ => true), q.receipts)
    modifies q
    ensures Board(raws, places, firsts, hubs, asked, msgs, keep, q.receipts)
    ensures forall j: nat :: j < |firsts| && Bodyless(firsts[j]) ==> j in asked
  {
    msgs, keep, asked := firsts, seq(|firsts|, _ => true), {};
    var groups := BodiesInHub(firsts);
    for g := 0 to |groups|
      invariant Board(raws, places, firsts, hubs, asked, msgs, keep, q.receipts)
      invariant forall j: nat :: j in asked <==>
        j < |firsts| && Bodyless(firsts[j]) && exists h :: 0 <= h < g && groups[h].recipient == firsts[j].recipient
    {
      var recipient, idxs := groups[g].recipient, groups[g].items;
      ListAt(groups, g);
      PlacesAre(firsts, recipient);
      assert idxs == PlacesFor(firsts, recipient);
      ghost var before := asked;
      for k := 0 to |idxs|
        invariant Board(raws, places, firsts, hubs, asked, msgs, keep, q.receipts)
        invariant forall j: nat :: j in asked <==> j in before || j in idxs[..k]
      {
        assert idxs[k] in idxs;
        assert idxs[k] !in before;
        assert idxs[k] !in idxs[..k];
        msgs, keep := SettleOne(q, raws, places, firsts, hubs, asked, msgs, keep, idxs[k]);
        asked := asked + {idxs[k]};
        assert idxs[..k + 1] == idxs[..k] + [idxs[k]];
      }
      assert idxs[..|idxs|] == idxs;
    }
    forall j: nat | j < |firsts| && Bodyless(firsts[j]) ensures j in asked {
      PlacesAre(firsts, firsts[j].recipient);
      assert j in ListFor(groups, firsts[j].recipient);
      ListSomewhere(groups, firsts[j].recipient);
    }
  }

  lemma {:induction false} ListSomewhere<T>(groups: seq<Group<T>>, recipient: string)
    requires ListFor(groups, recipient) != []
    ensures exists h :: 0 <= h < |groups| && groups[h].recipient == recipient
  {
    if groups[0].recipient != recipient {
      ListSomewhere(groups[1..], recipient);
      var h :| 0 <= h < |groups[1..]| && groups[1..][h].recipient == recipient;
      assert groups[h + 1].recipient == recipient;
    }
  }

  /** The queue's messages parsed, the malformed acknowledged. */
  method ParseAll(raws: seq<Raw>, q: Queue) returns (places: seq<nat>, msgs: seq<Message>)
    requires |q.receipts| == |raws| && forall i :: 0 <= i < |raws| ==> q.receipts[i] == UNSETTLED
    modifies q
    ensures Aligned(raws, places, msgs) && |q.receipts| == |raws|
    ensures forall i :: 0 <= i < |raws| ==> q.receipts[i] == if Malformed(raws[i]) then Receipt(1, 0) else UNSETTLED
    ensures forall i: nat :: i < |raws| && !Malformed(raws[i]) ==> i in places
  {
    places, msgs := [], [];
    for i := 0 to |raws|
      invariant |q.receipts| == |raws| && Aligned(raws, places, msgs)
      invariant forall k :: 0 <= k < |raws| ==>
        q.receipts[k] == if k < i && Malformed(raws[k]) then Receipt(1, 0) else UNSETTLED
      invariant forall j :: 0 <= j < |places| ==> places[j] < i
      invariant forall k: nat :: k < i && !Malformed(raws[k]) ==> k in places
    {
      if Malformed(raws[i]) {
        q.Ack(i);
      } else {
        places, msgs := places + [i], msgs + [raws[i].value];
      }
    }
  }

  /** The messages kept, with their places, settled with their pass: all written, or none. */
  method SettlePass(q: Queue, raws: seq<Raw>, places: seq<nat>, ghost firsts: seq<Message>, hubs: Hubs,
                    ghost asked: set<nat>,
                    ghost msgs: seq<Message>, keep: seq<bool>, written: bool)
    requires Board(raws, places, firsts, hubs, asked, msgs, keep, q.receipts)
    requires forall j: nat :: j < |firsts| && Bodyless(firsts[j]) ==> j in asked
    modifies q
    ensures |q.receipts| == |raws|
    ensures forall i :: 0 <= i < |raws| && Malformed(raws[i]) ==> q.receipts[i] == Receipt(1, 0)
    ensures forall j: nat :: j < |firsts| ==> q.receipts[places[j]] == Fate(Some(firsts[j]), hubs, written)
  {
    ghost var start := q.receipts;
    for j := 0 to |places|
      invariant |q.receipts| == |raws|
      invariant forall i :: 0 <= i < |raws| && Malformed(raws[i]) ==> q.receipts[i] == Receipt(1, 0)
      invariant forall k: nat :: k < j ==> q.receipts[places[k]] == Fate(Some(firsts[k]), hubs, written)
      invariant forall k: nat :: j <= k < |firsts| ==> q.receipts[places[k]] == start[places[k]]
    {
      assert Stands(firsts[j], hubs, j in asked, msgs[j], keep[j], start[places[j]]);
      if keep[j] {
        if written {
          q.Ack(places[j]);
        } else {
          q.Retry(places[j]);
        }
      }
    }
  }

  /** Where the queue has been read to after `j` parsed messages. */
  function EndOf(places: seq<nat>, j: nat): (end: nat)
    requires j <= |places|
  {
    if j == 0 then 0 else places[j - 1] + 1
  }

  /** The messages kept of the first `n` of the queue. */
  function KeptUpTo(raws: seq<Raw>, hubs: Hubs, n: nat): (r: seq<Message>)
    requires n <= |raws|
  {
    KeptOf(raws[..n], hubs)
  }

  lemma PassStep(raws: seq<Raw>, places: seq<nat>, firsts: seq<Message>, hubs: Hubs, asked: set<nat>,
                 msgs: seq<Message>, keep: seq<bool>, receipts: seq<Receipt>, j: nat)
    requires Board(raws, places, firsts, hubs, asked, msgs, keep, receipts) && j < |msgs|
    requires Bodyless(firsts[j]) ==> j in asked
    requires forall i: nat :: i < |raws| && !Malformed(raws[i]) ==> i in places
    ensures j < |places| && EndOf(places, j) < EndOf(places, j + 1) <= |raws|
    ensures KeptUpTo(raws, hubs, EndOf(places, j + 1))
            == KeptUpTo(raws, hubs, EndOf(places, j)) + (if keep[j] then [msgs[j]] else [])
  {
    assert Stands(firsts[j], hubs, j in asked, msgs[j], keep[j], receipts[places[j]]);
    KeptAcross(raws, hubs, places, firsts, j);
  }

  /** The messages whose place is kept, in order. */
  method KeptMessages(raws: seq<Raw>, places: seq<nat>, ghost firsts: seq<Message>, hubs: Hubs, ghost asked: set<nat>,
                      msgs: seq<Message>, keep: seq<bool>, ghost receipts: seq<Receipt>) returns (pass: seq<Message>)
    requires Board(raws, places, firsts, hubs, asked, msgs, keep, receipts)
    requires forall j: nat :: j < |firsts| && Bodyless(firsts[j]) ==> j in asked
    requires forall i: nat :: i < |raws| && !Malformed(raws[i]) ==> i in places
    ensures pass == KeptOf(raws, hubs)
  {
    pass := [];
    for j := 0 to |msgs|
      invariant j <= |places| && EndOf(places, j) <= |raws| && pass == KeptUpTo(raws, hubs, EndOf(places, j))
    {
      PassStep(raws, places, firsts, hubs, asked, msgs, keep, receipts, j);
      if keep[j] {
        pass := pass + [msgs[j]];
      }
    }
    KeptToTheEnd(raws, hubs, places, firsts);
  }

  /** Every message of the queue settled as its fate is. */
  method SettleAll(raws: seq<Raw>, hubs: Hubs, lands: bool) returns (q: Queue, pass: seq<Message>)
    ensures |q.receipts| == |raws| && forall i :: 0 <= i < |raws| ==> q.receipts[i] == Fate(raws[i], hubs, lands)
    ensures pass == KeptOf(raws, hubs)
  {
    q := new Queue(|raws|);
    var places, firsts := ParseAll(raws, q);
    var msgs, keep, asked := FillBodies(q, raws, places, firsts, hubs);
    pass := KeptMessages(raws, places, firsts, hubs, asked, msgs, keep, q.receipts);
    SettlePass(q, raws, places, firsts, hubs, asked, msgs, keep, lands);
    forall i | 0 <= i < |raws| ensures q.receipts[i] == Fate(raws[i], hubs, lands) {
      if !Malformed(raws[i]) {
        var j :| 0 <= j < |places| && places[j] == i;
      }
    }
  }

  /**
   The handler.  Whatever the queue holds, whichever hubs answer and whether or not the write lands,
   each message is settled exactly once: acknowledged when it is malformed, gone from a hub that answered
   or written, and retried when its hub could not be read or the pass was not written.  The pass is given
   exactly the messages kept.
   */
  method Consume(raws: seq<Raw>, hubs: Hubs, lands: bool) returns (q: Queue, pass: seq<Message>)
    ensures |q.receipts| == |raws| && forall i :: 0 <= i < |raws| ==> q.receipts[i] == Fate(raws[i], hubs, lands)
    ensures forall i :: 0 <= i < |raws| ==>
      q.receipts[i] ==
        if raws[i].None? then Receipt(1, 0)
        else
          var m := raws[i].value;
          if m.version == 0 || m.recipient == "" || m.id == "" then Receipt(1, 0)
          else if m.change.Insert? && m.body.None? && !m.inHub then Receipt(1, 0)
          else if m.body.None? && m.inHub && m.recipient !in hubs then Receipt(0, 1)
          else if m.body.None? && m.inHub && (m.id in hubs[m.recipient] ==> hubs[m.recipient][m.id].None?)
          then Receipt(1, 0)
          else if lands then Receipt(1, 0) else Receipt(0, 1)
    ensures pass == KeptOf(raws, hubs)
  {
    q, pass := SettleAll(raws, hubs, lands);
  }

  /** Between two parsed messages of the queue there are only malformed ones. */
  lemma {:induction false} KeptSkips(raws: seq<Raw>, hubs: Hubs, a: nat, b: nat)
    requires a <= b <= |raws| && forall i :: a <= i < b ==> Malformed(raws[i])
    ensures KeptOf(raws[..b], hubs) == KeptOf(raws[..a], hubs)
    decreases b
  {
    if a < b {
      KeptSkips(raws, hubs, a, b - 1);
      assert raws[..b][..b - 1] == raws[..b - 1];
    }
  }

  /** A number between two neighbours of an increasing list is not in it. */
  lemma NotBetween(places: seq<nat>, j: nat, i: nat)
    requires j <= |places| && forall a, b :: 0 <= a < b < |places| ==> places[a] < places[b]
    requires (j > 0 ==> places[j - 1] < i) && (j < |places| ==> i < places[j])
    ensures i !in places
  {
    forall k | 0 <= k < |places| ensures places[k] != i {
      if k < j { assert places[k] <= places[j - 1]; } else { assert places[j] <= places[k]; }
    }
  }

  lemma KeptAcross(raws: seq<Raw>, hubs: Hubs, places: seq<nat>, msgs: seq<Message>, j: nat)
    requires Aligned(raws, places, msgs) && j < |places|
    requires forall i: nat :: i < |raws| && !Malformed(raws[i]) ==> i in places
    ensures var from := if j == 0 then 0 else places[j - 1] + 1;
            from <= places[j] && KeptOf(raws[..places[j] + 1], hubs)
            == KeptOf(raws[..from], hubs) + (if Decide(msgs[j], hubs).Keep? then [Decide(msgs[j], hubs).m] else [])
  {
    var from := if j == 0 then 0 else places[j - 1] + 1;
    var p := places[j];
    forall i | from <= i < p ensures Malformed(raws[i]) {
      NotBetween(places, j, i);
    }
    KeptSkips(raws, hubs, from, p);
    assert raws[..p + 1][..p] == raws[..p];
  }

  lemma KeptToTheEnd(raws: seq<Raw>, hubs: Hubs, places: seq<nat>, msgs: seq<Message>)
    requires Aligned(raws, places, msgs)
    requires forall i: nat :: i < |raws| && !Malformed(raws[i]) ==> i in places
    ensures EndOf(places, |places|) <= |raws| && KeptUpTo(raws, hubs, EndOf(places, |places|)) == KeptOf(raws, hubs)
  {
    var n := |places|;
    var from := EndOf(places, n);
    forall i | from <= i < |raws| ensures Malformed(raws[i]) {
      NotBetween(places, n, i);
    }
    KeptSkips(raws, hubs, from, |raws|);
    assert raws[..|raws|] == raws;
  }
}
