/**
 An acknowledgment's statements: the recipient's rows in retained boxes are marked, the others deleted, by
 statements that each stay inside the parameters one query may bind.
 */
module Retention {
  import opened Prelude
  import opened LikePrefix

  type Id = string

  datatype Row = Row(recipient: string, box: nat, acknowledged: bool)

  /** The message table and the types of the boxes. */
  datatype Table = Table(boxes: map<nat, string>, rows: map<Id, Row>)

  /** A mark or a delete, with what it binds: the recipient, the ids, the patterns. */
  datatype Statement = Statement(mark: bool, recipient: string, ids: seq<Id>, patterns: seq<string>)

  datatype Outcome = Outcome(table: Table, changes: nat)

  /** D1's bound parameters per query. */
  const MAX_PARAMS: nat := 100

  function Binds(s: Statement): (r: seq<string>) {
    [s.recipient] + s.ids + s.patterns
  }

  /** The ids one statement carries, at least one. */
  function IdsPerStatement(prefixes: nat): (per: nat) {
    Max(SaturatingSub(MAX_PARAMS, 1 + prefixes), 1)
  }

  // -------------------------------------------------------------------------
  // What a statement does
  // -------------------------------------------------------------------------

  /** The row's box is there and its type is in the class. */
  predicate InRetainedBox(t: Table, row: Row, patterns: seq<string>) {
    row.box in t.boxes && InClass(patterns, t.boxes[row.box])
  }

  /** The rows an unchunked mark of the id set touches. */
  function Marked(t: Table, recipient: string, ids: set<Id>, patterns: seq<string>): (r: set<Id>) {
    set id | id in t.rows && id in ids && t.rows[id].recipient == recipient && !t.rows[id].acknowledged
             && InRetainedBox(t, t.rows[id], patterns)
  }

  /** The rows an unchunked delete of the id set touches; with no patterns the statement names no box. */
  function Gone(t: Table, recipient: string, ids: set<Id>, patterns: seq<string>): (r: set<Id>) {
    set id | id in t.rows && id in ids && t.rows[id].recipient == recipient
             && (patterns == [] || !InRetainedBox(t, t.rows[id], patterns))
  }

  function WithMarked(t: Table, ids: set<Id>): (r: Table) {
    t.(rows := map id | id in t.rows :: if id in ids then t.rows[id].(acknowledged := true) else t.rows[id])
  }

  function Without(t: Table, ids: set<Id>): (r: Table) {
    t.(rows := map id | id in t.rows && id !in ids :: t.rows[id])
  }

  function IdSet(ids: seq<Id>): (r: set<Id>) {
    set i | 0 <= i < |ids| :: ids[i]
  }

  /** The rows a statement changes. */
  function Touched(t: Table, s: Statement): (r: set<Id>) {
    if s.mark then Marked(t, s.recipient, IdSet(s.ids), s.patterns) else Gone(t, s.recipient, IdSet(s.ids), s.patterns)
  }

  function Ran(t: Table, s: Statement): (r: Table) {
    if s.mark then WithMarked(t, Touched(t, s)) else Without(t, Touched(t, s))
  }

  /** The table and the change count after the statements in order. */
  function RunAll(t: Table, plan: seq<Statement>): (r: Outcome) {
    if plan == [] then Outcome(t, 0)
    else RunLast(RunAll(t, plan[..|plan| - 1]), plan[|plan| - 1])
  }

  function RunLast(before: Outcome, s: Statement): (r: Outcome) {
    Outcome(Ran(before.table, s), before.changes + |Touched(before.table, s)|)
  }

  // -------------------------------------------------------------------------
  // The plan
  // -------------------------------------------------------------------------

  /** `ids` in order in chunks of `per`, the last one the rest. */
  function Chunks(ids: seq<Id>, per: nat): (r: seq<seq<Id>>)
    requires per > 0
  {
    if ids == [] then [] else if |ids| <= per then [ids] else [ids[..per]] + Chunks(ids[per..], per)
  }

  /** One statement a chunk. */
  function Each(mark: bool, recipient: string, chunks: seq<seq<Id>>, patterns: seq<string>): (r: seq<Statement>) {
    seq(|chunks|, i requires 0 <= i < |chunks| => Statement(mark, recipient, chunks[i], patterns))
  }

  function Plan(recipient: string, ids: seq<Id>, patterns: seq<string>): (r: seq<Statement>) {
    var chunks := Chunks(ids, IdsPerStatement(|patterns|));
    (if patterns == [] then [] else Each(true, recipient, chunks, patterns)) + Each(false, recipient, chunks, patterns)
  }

  /** All the marks, when there is a prefix, and then all the deletes. */
  method AckStatements(recipient: string, ids: seq<Id>, patterns: seq<string>) returns (out: seq<Statement>)
    ensures out == Plan(recipient, ids, patterns)
    ensures (forall i :: 0 <= i < |out| ==> |Binds(out[i])| <= 100) <==> ids == [] || |patterns| <= 98
    ensures forall t: Table, id: Id :: Asked(t, recipient, ids, id) ==>
      (id in RunAll(t, out).table.rows <==>
        t.rows[id].box in t.boxes && exists i :: 0 <= i < |patterns| && Like(patterns[i], t.boxes[t.rows[id].box]))
    ensures forall t: Table :: RunAll(t, out) == AtOnce(t, recipient, IdSet(ids), patterns)
  {
    var per := IdsPerStatement(|patterns|);
    var marks, deletes := [], [];
    if |patterns| > 0 { marks := PerChunk(true, recipient, ids, patterns, per); }
    deletes := PerChunk(false, recipient, ids, patterns, per);
    out := marks + deletes;
    BindsFit(recipient, ids, patterns);
    forall t: Table ensures RunAll(t, out) == AtOnce(t, recipient, IdSet(ids), patterns) {
      ChunkedIsAtOnce(t, recipient, ids, patterns);
    }
    forall t: Table, id: Id | Asked(t, recipient, ids, id)
      ensures id in RunAll(t, out).table.rows <==>
              t.rows[id].box in t.boxes && exists i :: 0 <= i < |patterns| && Like(patterns[i], t.boxes[t.rows[id].box])
    {
      MarkedOrGone(t, recipient, ids, patterns, id);
    }
  }

  method PerChunk(mark: bool, recipient: string, ids: seq<Id>, patterns: seq<string>, per: nat)
    returns (out: seq<Statement>)
    requires per > 0
    ensures out == Each(mark, recipient, Chunks(ids, per), patterns)
  {
    out := [];
    var rest := ids;
    while rest != []
      invariant out + Each(mark, recipient, Chunks(rest, per), patterns) ==
        Each(mark, recipient, Chunks(ids, per), patterns)
      decreases |rest|
    {
      var n := if |rest| <= per then |rest| else per;
      var s := Statement(mark, recipient, rest[..n], patterns);
      FirstChunk(rest, per);
      EachSplits(mark, recipient, rest[..n], Chunks(rest[n..], per), patterns);
      out := out + [s];
      rest := rest[n..];
    }
  }

  // -------------------------------------------------------------------------
  // Every statement's binds
  // -------------------------------------------------------------------------

  lemma {:induction false} ChunksFit(ids: seq<Id>, per: nat)
    requires per > 0
    ensures forall i :: 0 <= i < |Chunks(ids, per)| ==> 1 <= |Chunks(ids, per)[i]| <= per
    ensures forall i :: 0 <= i < |Chunks(ids, per)| - 1 ==> |Chunks(ids, per)[i]| == per
    ensures |Chunks(ids, per)| == 0 <==> ids == []
    decreases |ids|
  {
    if |ids| > per { ChunksFit(ids[per..], per); }
  }

  /** Every statement binds at most the limit if and only if there is nothing to acknowledge or there are at
      most ninety-eight prefixes. */
  lemma BindsFit(recipient: string, ids: seq<Id>, patterns: seq<string>)
    ensures var plan := Plan(recipient, ids, patterns);
      (forall i :: 0 <= i < |plan| ==> |Binds(plan[i])| <= 100) <==> ids == [] || |patterns| <= 98
  {
    var per := IdsPerStatement(|patterns|);
    var chunks, plan := Chunks(ids, per), Plan(recipient, ids, patterns);
    ChunksFit(ids, per);
    forall i | 0 <= i < |plan|
      ensures exists j ::
                0 <= j < |chunks| && plan[i].ids == chunks[j] && |Binds(plan[i])| == 1 + |chunks[j]| + |patterns|
    {
      var j := if patterns == [] || i < |chunks| then i else i - |chunks|;
      assert plan[i].ids == chunks[j];
    }
    if ids != [] && |patterns| > 98 { assert |Binds(plan[0])| > MAX_PARAMS; }
  }

  /** Every statement but the last of its half is full: it binds a hundred values or, past ninety-eight prefixes, one
      id. */
  lemma StatementsAreFull(recipient: string, ids: seq<Id>, patterns: seq<string>, i: nat)
    requires i + 1 < |Plan(recipient, ids, patterns)|
    requires Plan(recipient, ids, patterns)[i].mark == Plan(recipient, ids, patterns)[i + 1].mark
    ensures |Binds(Plan(recipient, ids, patterns)[i])| == Max(100, |patterns| + 2)
  {
    var per := IdsPerStatement(|patterns|);
    var chunks, plan := Chunks(ids, per), Plan(recipient, ids, patterns);
    ChunksFit(ids, per);
    var j := if patterns == [] || i < |chunks| then i else i - |chunks|;
    assert plan[i].ids == chunks[j] && j < |chunks| - 1;
  }

  // -------------------------------------------------------------------------
  // The chunks add up to the whole
  // -------------------------------------------------------------------------

  /** One mark of the id set, then one delete of it. */
  function AtOnce(t: Table, recipient: string, ids: set<Id>, patterns: seq<string>): (r: Outcome) {
    var marked := Marked(t, recipient, ids, patterns);
    var t' := WithMarked(t, marked);
    var gone := Gone(t', recipient, ids, patterns);
    Outcome(Without(t', gone), |marked| + |gone|)
  }

  lemma IdSetJoins(a: seq<Id>, b: seq<Id>)
    ensures IdSet(a + b) == IdSet(a) + IdSet(b)
  {
    forall id | id in IdSet(a) + IdSet(b) ensures id in IdSet(a + b) {
      if id in IdSet(a) {
        var i :| 0 <= i < |a| && a[i] == id;
        assert (a + b)[i] == id;
      } else {
        var i :| 0 <= i < |b| && b[i] == id;
        assert (a + b)[|a| + i] == id;
      }
    }
  }

  /** A mark after a mark touches what the joint mark adds. */
  lemma MarksAdd(t: Table, recipient: string, a: set<Id>, b: set<Id>, patterns: seq<string>)
    ensures var m := Marked(t, recipient, a, patterns);
      var m' := Marked(WithMarked(t, m), recipient, b, patterns);
      var both := Marked(t, recipient, a + b, patterns);
      WithMarked(WithMarked(t, m), m') == WithMarked(t, both) && |m| + |m'| == |both|
  {
    var m := Marked(t, recipient, a, patterns);
    var m' := Marked(WithMarked(t, m), recipient, b, patterns);
    MarkedSplits(t, recipient, a, b, patterns);
    MarkTwice(t, m, m');
    assert |m + m'| == |m| + |m'|;
  }

  lemma MarkTwice(t: Table, m: set<Id>, m': set<Id>)
    ensures WithMarked(WithMarked(t, m), m') == WithMarked(t, m + m')
  {
    assert WithMarked(WithMarked(t, m), m').rows == WithMarked(t, m + m').rows;
  }

  lemma MarkedSplits(t: Table, recipient: string, a: set<Id>, b: set<Id>, patterns: seq<string>)
    ensures var m := Marked(t, recipient, a, patterns);
      var m' := Marked(WithMarked(t, m), recipient, b, patterns);
      m !! m' && m + m' == Marked(t, recipient, a + b, patterns)
  {
    var m := Marked(t, recipient, a, patterns);
    var t' := WithMarked(t, m);
    forall id | id in t.rows ensures InRetainedBox(t', t'.rows[id], patterns) ==
        InRetainedBox(t, t.rows[id], patterns) {
    }
  }

  lemma GoneAdd(t: Table, recipient: string, a: set<Id>, b: set<Id>, patterns: seq<string>)
    ensures var g := Gone(t, recipient, a, patterns);
      var g' := Gone(Without(t, g), recipient, b, patterns);
      var both := Gone(t, recipient, a + b, patterns);
      Without(Without(t, g), g') == Without(t, both) && |g| + |g'| == |both|
  {
    var g := Gone(t, recipient, a, patterns);
    var g' := Gone(Without(t, g), recipient, b, patterns);
    assert g !! g' && g + g' == Gone(t, recipient, a + b, patterns);
    assert Without(Without(t, g), g').rows == Without(t, g + g').rows;
  }

  /** A statement for some of the ids and then one for the rest is one for them all. */
  lemma StatementsAdd(t: Table, mark: bool, recipient: string, a: seq<Id>, b: seq<Id>, patterns: seq<string>)
    ensures var one := RunLast(Outcome(t, 0), Statement(mark, recipient, a, patterns));
      RunLast(one, Statement(mark, recipient, b, patterns))
         == RunLast(Outcome(t, 0), Statement(mark, recipient, a + b, patterns))
  {
    IdSetJoins(a, b);
    if mark { MarksAdd(t, recipient, IdSet(a), IdSet(b), patterns); }
    else { GoneAdd(t, recipient, IdSet(a), IdSet(b), patterns); }
  }

  function Plus(o: Outcome, n: nat): (r: Outcome) {
    o.(changes := o.changes + n)
  }

  /** Running on counts from where the plan before it stopped. */
  lemma {:induction false} RunJoins(t: Table, a: seq<Statement>, b: seq<Statement>)
    ensures RunAll(t, a + b) == Plus(RunAll(RunAll(t, a).table, b), RunAll(t, a).changes)
    decreases |b|
  {
    if b == [] { assert a + b == a; } else {
      assert (a + b)[..|a + b| - 1] == a + b[..|b| - 1];
      RunJoins(t, a, b[..|b| - 1]);
    }
  }

  lemma RunOne(t: Table, s: Statement)
    ensures RunAll(t, [s]) == RunLast(Outcome(t, 0), s)
  {
    assert [s][..0] == [];
    assert RunAll(t, []) == Outcome(t, 0);
  }

  lemma NoIds(t: Table, mark: bool, recipient: string, patterns: seq<string>)
    ensures RunLast(Outcome(t, 0), Statement(mark, recipient, [], patterns)) == Outcome(t, 0)
  {
    var s := Statement(mark, recipient, [], patterns);
    assert Touched(t, s) == {};
    assert Ran(t, s).rows == t.rows;
  }

  lemma EachSplits(mark: bool, recipient: string, first: seq<Id>, rest: seq<seq<Id>>, patterns: seq<string>)
    ensures Each(mark, recipient, [first] + rest, patterns)
         == [Statement(mark, recipient, first, patterns)] + Each(mark, recipient, rest, patterns)
  {
  }

  lemma FirstChunk(ids: seq<Id>, per: nat)
    requires 0 < per && ids != []
    ensures var n := if |ids| <= per then |ids| else per;
      Chunks(ids, per) == [ids[..n]] + Chunks(ids[n..], per)
  {
    if |ids| <= per {
      assert ids[..|ids|] == ids && ids[|ids|..] == [];
    }
  }

  /** The first chunk's statement and then one for the rest are one for all. */
  lemma FirstAndRest(t: Table, mark: bool, recipient: string, ids: seq<Id>, patterns: seq<string>, n: nat,
                     rest: seq<Statement>)
    requires n <= |ids|
    requires var first := Statement(mark, recipient, ids[..n], patterns);
      RunAll(Ran(t, first), rest) == RunLast(Outcome(Ran(t, first), 0), Statement(mark, recipient, ids[n..], patterns))
    ensures RunAll(t, [Statement(mark, recipient, ids[..n], patterns)] + rest)
         == RunLast(Outcome(t, 0), Statement(mark, recipient, ids, patterns))
  {
    var first := Statement(mark, recipient, ids[..n], patterns);
    RunJoins(t, [first], rest);
    RunOne(t, first);
    StatementsAdd(t, mark, recipient, ids[..n], ids[n..], patterns);
    assert ids[..n] + ids[n..] == ids;
  }

  /** The marks of every chunk are one mark of the id set, and so for the deletes. */
  lemma {:induction false} EachIsOne(t: Table, mark: bool, recipient: string, ids: seq<Id>, patterns: seq<string>,
                                     per: nat)
    requires per > 0
    ensures RunAll(t, Each(mark, recipient, Chunks(ids, per), patterns))
         == RunLast(Outcome(t, 0), Statement(mark, recipient, ids, patterns))
    decreases |ids|
  {
    if ids == [] {
      NoIds(t, mark, recipient, patterns);
    } else {
      var n := if |ids| <= per then |ids| else per;
      FirstChunk(ids, per);
      EachSplits(mark, recipient, ids[..n], Chunks(ids[n..], per), patterns);
      EachIsOne(Ran(t, Statement(mark, recipient, ids[..n], patterns)), mark, recipient, ids[n..], patterns, per);
      FirstAndRest(t, mark, recipient, ids, patterns, n, Each(mark, recipient, Chunks(ids[n..], per), patterns));
    }
  }

  /** With no patterns there is nothing to mark. */
  lemma NothingRetained(t: Table, recipient: string, ids: set<Id>)
    ensures Marked(t, recipient, ids, []) == {} && WithMarked(t, {}) == t
  {
    assert WithMarked(t, {}).rows == t.rows;
  }

  /** For any list, repeats included, the plan leaves the table and the change count of one mark and one
      delete of the id set. */
  lemma ChunkedIsAtOnce(t: Table, recipient: string, ids: seq<Id>, patterns: seq<string>)
    ensures RunAll(t, Plan(recipient, ids, patterns)) == AtOnce(t, recipient, IdSet(ids), patterns)
  {
    var per := IdsPerStatement(|patterns|);
    var deletes := Each(false, recipient, Chunks(ids, per), patterns);
    if patterns == [] {
      assert Plan(recipient, ids, patterns) == deletes;
      NothingRetained(t, recipient, IdSet(ids));
      EachIsOne(t, false, recipient, ids, patterns, per);
    } else {
      var marks := Each(true, recipient, Chunks(ids, per), patterns);
      RunJoins(t, marks, deletes);
      EachIsOne(t, true, recipient, ids, patterns, per);
      EachIsOne(RunAll(t, marks).table, false, recipient, ids, patterns, per);
    }
  }

  // -------------------------------------------------------------------------
  // What an acknowledgment leaves
  // -------------------------------------------------------------------------

  /** A row the acknowledgment is about: the recipient's, by its id. */
  predicate Asked(t: Table, recipient: string, ids: seq<Id>, id: Id) {
    id in t.rows && id in IdSet(ids) && t.rows[id].recipient == recipient
  }

  /** Each of the recipient's rows asked for is marked or deleted, never both, by its box alone; every other
      row is as it was. */
  lemma MarkedOrGone(t: Table, recipient: string, ids: seq<Id>, patterns: seq<string>, id: Id)
    ensures var after := RunAll(t, Plan(recipient, ids, patterns)).table.rows;
      if Asked(t, recipient, ids, id) then
        if InRetainedBox(t, t.rows[id], patterns)
        then id in after && after[id] == t.rows[id].(acknowledged := true)
        else id !in after
      else (id in after <==> id in t.rows) && (id in after ==> after[id] == t.rows[id])
  {
    ChunkedIsAtOnce(t, recipient, ids, patterns);
  }

  /** The asked rows an acknowledgment changes: all but those marked already in a retained box. */
  function Changed(t: Table, recipient: string, ids: seq<Id>, patterns: seq<string>): (r: set<Id>) {
    set id | id in t.rows && Asked(t, recipient, ids, id)
             && !(t.rows[id].acknowledged && InRetainedBox(t, t.rows[id], patterns))
  }

  /** The change count is their number: a row already marked counts nothing. */
  lemma ChangesAre(t: Table, recipient: string, ids: seq<Id>, patterns: seq<string>)
    ensures RunAll(t, Plan(recipient, ids, patterns)).changes == |Changed(t, recipient, ids, patterns)|
  {
    ChunkedIsAtOnce(t, recipient, ids, patterns);
    var marked := Marked(t, recipient, IdSet(ids), patterns);
    ChangedSplits(t, recipient, ids, patterns);
    var gone := Gone(WithMarked(t, marked), recipient, IdSet(ids), patterns);
    assert |marked + gone| == |marked| + |gone|;
  }

  lemma ChangedSplits(t: Table, recipient: string, ids: seq<Id>, patterns: seq<string>)
    ensures var marked := Marked(t, recipient, IdSet(ids), patterns);
      var gone := Gone(WithMarked(t, marked), recipient, IdSet(ids), patterns);
      marked !! gone && marked + gone == Changed(t, recipient, ids, patterns)
  {
  }

  /** The same acknowledgment again changes nothing and counts nothing. */
  lemma AgainIsNothing(t: Table, recipient: string, ids: seq<Id>, patterns: seq<string>)
    ensures var after := RunAll(t, Plan(recipient, ids, patterns)).table;
      RunAll(after, Plan(recipient, ids, patterns)) == Outcome(after, 0)
  {
    var after := RunAll(t, Plan(recipient, ids, patterns)).table;
    ChunkedIsAtOnce(t, recipient, ids, patterns);
    ChunkedIsAtOnce(after, recipient, ids, patterns);
    assert after.boxes == t.boxes;
    assert Marked(after, recipient, IdSet(ids), patterns) == {};
    assert WithMarked(after, {}).rows == after.rows;
    assert Gone(after, recipient, IdSet(ids), patterns) == {};
    assert Without(after, {}).rows == after.rows;
  }

  /** The text begins with one of the prefixes, ASCII case aside. */
  predicate BeginsWithOne(prefixes: seq<string>, text: string) {
    exists i :: 0 <= i < |prefixes| && |prefixes[i]| <= |text| && SameLetters(prefixes[i], text)
  }

  predicate SameLetters(prefix: string, text: string)
    requires |prefix| <= |text|
  {
    forall j :: 0 <= j < |prefix| ==> SameLetter(prefix[j], text[j])
  }

  /** An asked row is kept, and then marked, exactly when its box is there and its type begins with a retained
      prefix up to ASCII case; every other asked row is deleted. */
  lemma KeptExactly(t: Table, recipient: string, ids: seq<Id>, prefixes: seq<string>, id: Id)
    requires Asked(t, recipient, ids, id)
    ensures var after := RunAll(t, Plan(recipient, ids, Patterns(prefixes))).table.rows;
      && (id in after <==> t.rows[id].box in t.boxes && BeginsWithOne(prefixes, t.boxes[t.rows[id].box]))
      && (id in after ==> after[id] == Row(recipient, t.rows[id].box, true))
  {
    MarkedOrGone(t, recipient, ids, Patterns(prefixes), id);
    if t.rows[id].box in t.boxes {
      var box := t.boxes[t.rows[id].box];
      ClassIsFoldedPrefixes(prefixes, box);
      forall i | 0 <= i < |prefixes|
        ensures BeginsFolded(prefixes[i], box) <==> |prefixes[i]| <= |box| && SameLetters(prefixes[i], box)
      {
        FoldsAlike(prefixes[i], box);
      }
    }
  }

  lemma FoldsAlike(prefix: string, text: string)
    ensures BeginsFolded(prefix, text) <==> |prefix| <= |text| && SameLetters(prefix, text)
  {
    if |prefix| <= |text| {
      forall j | 0 <= j < |prefix| ensures Fold(prefix[j]) == Fold(text[j]) <==> SameLetter(prefix[j], text[j]) {
        FoldIs(prefix[j], text[j]);
      }
    }
  }

  /** A row in a box the relay retains is never deleted by an acknowledgment. */
  lemma RetainedIsKept(t: Table, recipient: string, ids: seq<Id>, prefixes: seq<string>, id: Id)
    requires id in t.rows && t.rows[id].box in t.boxes && Retains(prefixes, t.boxes[t.rows[id].box])
    ensures id in RunAll(t, Plan(recipient, ids, Patterns(prefixes))).table.rows
  {
    ClassIsFoldedPrefixes(prefixes, t.boxes[t.rows[id].box]);
    MarkedOrGone(t, recipient, ids, Patterns(prefixes), id);
  }
}
