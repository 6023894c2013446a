/**
 Which outputs of a payment serve which recipients: those tagged with a recipient's key go to it, the
 others in order to the recipients no tag names.  An output is known by its position in the payment.
 */
module OutputRouting {
  import opened Prelude

  type Key = string

  /** The recipient's key its instructions name, none when they name none or a blank one, and its `outputIndex`. */
  datatype Output = Output(tag: Option<Key>, index: Option<nat>)

  datatype Refusal = TooFew | MissingRecipient

  datatype Result = Ok(served: map<Key, seq<nat>>) | Err(why: Refusal)

  // -------------------------------------------------------------------------
  // What a routing is
  // -------------------------------------------------------------------------

  /** The positions tagged with the key, in order. */
  function TaggedFor(outputs: seq<Output>, key: Key): (r: seq<nat>) {
    if outputs == [] then []
    else
      var n := |outputs| - 1;
      TaggedFor(outputs[..n], key) + if outputs[n].tag == Some(key) then [n] else []
  }

  /** The output indices the tagged outputs carry. */
  function UsedIndices(outputs: seq<Output>): (r: set<nat>) {
    set i | 0 <= i < |outputs| && outputs[i].tag.Some? && outputs[i].index.Some? :: outputs[i].index.value
  }

  predicate Free(o: Output, used: set<nat>) {
    o.index.None? || o.index.value !in used
  }

  /** The positions whose index no tagged output carries, in order: an output without an index is always one. */
  function Remaining(outputs: seq<Output>, used: set<nat>): (r: seq<nat>) {
    if outputs == [] then []
    else
      var n := |outputs| - 1;
      Remaining(outputs[..n], used) + if Free(outputs[n], used) then [n] else []
  }

  predicate AnyTag(outputs: seq<Output>) {
    exists i :: 0 <= i < |outputs| && outputs[i].tag.Some?
  }

  /** The recipients no tag names. */
  function Unmapped(outputs: seq<Output>, recipients: seq<Key>): (r: seq<Key>) {
    if recipients == [] then []
    else
      var n := |recipients| - 1;
      Unmapped(outputs, recipients[..n]) + if TaggedFor(outputs, recipients[n]) == [] then [recipients[n]] else []
  }

  /** One position for each key in turn; a key given twice keeps its later one. */
  function Assigned(keys: seq<Key>, slots: seq<nat>): (m: map<Key, seq<nat>>)
    requires |keys| <= |slots|
  {
    if keys == [] then map[] else Assigned(keys[..|keys| - 1], slots)[keys[|keys| - 1] := [slots[|keys| - 1]]]
  }

  function ByTag(outputs: seq<Output>, recipients: seq<Key>): (m: map<Key, seq<nat>>) {
    map key | key in recipients && TaggedFor(outputs, key) != [] :: TaggedFor(outputs, key)
  }

  function Positions(n: nat): (r: seq<nat>) {
    seq(n, i => i)
  }

  function Routed(outputs: seq<Output>, recipients: seq<Key>): (r: Result) {
    if !AnyTag(outputs) then
      if |outputs| < |recipients| then Err(TooFew) else Ok(Assigned(recipients, Positions(|outputs|)))
    else
      var unmapped, remaining := Unmapped(outputs, recipients), Remaining(outputs, UsedIndices(outputs));
      if |remaining| < |unmapped| then Err(TooFew)
      else Ok(ByTag(outputs, recipients) + Assigned(unmapped, remaining))
  }

  // -------------------------------------------------------------------------
  // The routing as it is computed
  // -------------------------------------------------------------------------

  /** The tagged positions by their key, and the indices they carry. */
  method CollectTags(outputs: seq<Output>) returns (byKey: map<Key, seq<nat>>, used: set<nat>)
    ensures used == UsedIndices(outputs)
    ensures forall key :: if key in byKey then byKey[key] == TaggedFor(outputs, key) != []
      else TaggedFor(outputs, key) == []
    ensures byKey == map[] <==> !AnyTag(outputs)
  {
    byKey, used := map[], {};
    for i := 0 to |outputs|
      invariant used == UsedIndices(outputs[..i])
      invariant forall key :: if key in byKey then byKey[key] == TaggedFor(outputs[..i], key) != []
        else TaggedFor(outputs[..i], key) == []
      invariant (forall key :: key !in byKey) <==> !AnyTag(outputs[..i])
    {
      assert outputs[..i + 1][..i] == outputs[..i];
      var o := outputs[i];
      UsedThen(outputs, i);
      if o.tag.Some? {
        byKey := byKey[o.tag.value := (if o.tag.value in byKey then byKey[o.tag.value] else []) + [i]];
        if o.index.Some? { used := used + {o.index.value}; }
        assert outputs[..i + 1][i].tag.Some?;
        assert o.tag.value in byKey;
      } else {
        assert forall j :: 0 <= j < i ==> outputs[..i + 1][j] == outputs[..i][j];
      }
    }
    assert outputs[..|outputs|] == outputs;
  }

  lemma UsedThen(outputs: seq<Output>, i: nat)
    requires i < |outputs|
    ensures UsedIndices(outputs[..i + 1]) == UsedIndices(outputs[..i]) +
      if outputs[i].tag.Some? && outputs[i].index.Some? then {outputs[i].index.value} else {}
  {
    var a, b := outputs[..i], outputs[..i + 1];
    assert forall j :: 0 <= j < i ==> b[j] == a[j];
    forall x | x in UsedIndices(a) ensures x in UsedIndices(b) {
      var j :| 0 <= j < i && a[j].tag.Some? && a[j].index.Some? && a[j].index.value == x;
      assert b[j].index.value == x;
    }
    if outputs[i].tag.Some? && outputs[i].index.Some? { assert b[i].index.value in UsedIndices(b); }
  }

  method Filter(outputs: seq<Output>, used: set<nat>) returns (remaining: seq<nat>)
    ensures remaining == Remaining(outputs, used)
  {
    remaining := [];
    for i := 0 to |outputs|
      invariant remaining == Remaining(outputs[..i], used)
    {
      assert outputs[..i + 1][..i] == outputs[..i];
      if Free(outputs[i], used) { remaining := remaining + [i]; }
    }
    assert outputs[..|outputs|] == outputs;
  }

  /** Give the recipients their tagged outputs; the rest of them in order are left unmapped. */
  method AssignTagged(outputs: seq<Output>, recipients: seq<Key>, byKey: map<Key, seq<nat>>)
    returns (result: map<Key, seq<nat>>, unmapped: seq<Key>)
    requires forall key :: if key in byKey then byKey[key] == TaggedFor(outputs, key) != []
      else TaggedFor(outputs, key) == []
    ensures result == ByTag(outputs, recipients) && unmapped == Unmapped(outputs, recipients)
  {
    result := map[];
    for i := 0 to |recipients|
      invariant result == ByTag(outputs, recipients[..i])
    {
      var key := recipients[i];
      assert recipients[..i + 1] == recipients[..i] + [key];
      if key in byKey { result := result[key := byKey[key]]; }
    }
    assert recipients[..|recipients|] == recipients;
    unmapped := LeftOver(outputs, recipients, result);
  }

  /** The recipients without an output so far, in order. */
  method LeftOver(outputs: seq<Output>, recipients: seq<Key>, result: map<Key, seq<nat>>) returns (unmapped: seq<Key>)
    requires forall i :: 0 <= i < |recipients| ==>
      (recipients[i] in result <==> TaggedFor(outputs, recipients[i]) != [])
    ensures unmapped == Unmapped(outputs, recipients)
  {
    unmapped := [];
    for i := 0 to |recipients|
      invariant unmapped == Unmapped(outputs, recipients[..i])
    {
      assert recipients[..i + 1][..i] == recipients[..i];
      if recipients[i] !in result { unmapped := unmapped + [recipients[i]]; }
    }
    assert recipients[..|recipients|] == recipients;
  }

  method Fill(start: map<Key, seq<nat>>, keys: seq<Key>, slots: seq<nat>) returns (result: map<Key, seq<nat>>)
    requires |keys| <= |slots|
    ensures result == start + Assigned(keys, slots)
  {
    result := start;
    for i := 0 to |keys|
      invariant result == start + Assigned(keys[..i], slots)
    {
      assert keys[..i + 1][..i] == keys[..i];
      result := result[keys[i] := [slots[i]]];
    }
    assert keys[..|keys|] == keys;
  }

  /** The routing; its last refusal, of a recipient left without outputs, is never given. */
  method Route(outputs: seq<Output>, recipients: seq<Key>) returns (r: Result)
    ensures r == Routed(outputs, recipients)
    ensures r != Err(MissingRecipient)
  {
    var byKey, used := CollectTags(outputs);
    var result: map<Key, seq<nat>> := map[];
    if byKey == map[] {
      if |outputs| < |recipients| { return Err(TooFew); }
      result := Fill(map[], recipients, Positions(|outputs|));
    } else {
      var unmapped;
      result, unmapped := AssignTagged(outputs, recipients, byKey);
      ByTagAlone(outputs, recipients);
      if unmapped != [] {
        var remaining := Filter(outputs, used);
        if |remaining| < |unmapped| { return Err(TooFew); }
        result := Fill(result, unmapped, remaining);
      }
      ServesEvery(outputs, recipients);
      for i := 0 to |recipients| {
        if recipients[i] !in result { return Err(MissingRecipient); }
      }
    }
    r := Ok(result);
  }

  // -------------------------------------------------------------------------
  // What a routing gives
  // -------------------------------------------------------------------------

  lemma {:induction false} TaggedAre(outputs: seq<Output>, key: Key)
    ensures var r := TaggedFor(outputs, key);
      && (forall p :: p in r <==> 0 <= p < |outputs| && outputs[p].tag == Some(key))
      && ((forall p :: 0 <= p < |outputs| ==> outputs[p].tag != Some(key)) ==> r == [])
  {
    if outputs != [] {
      var n := |outputs| - 1;
      TaggedAre(outputs[..n], key);
      assert forall p :: 0 <= p < n ==> outputs[..n][p] == outputs[p];
    }
  }

  lemma {:induction false} TaggedInOrder(outputs: seq<Output>, key: Key, r: seq<nat>)
    requires r == TaggedFor(outputs, key)
    ensures forall i :: 0 <= i < |r| ==> r[i] < |outputs|
    ensures forall i, j :: 0 <= i < j < |r| ==> r[i] < r[j]
  {
    if outputs != [] { TaggedInOrder(outputs[..|outputs| - 1], key, TaggedFor(outputs[..|outputs| - 1], key)); }
  }

  lemma {:induction false} RemainingAre(outputs: seq<Output>, used: set<nat>)
    ensures var r := Remaining(outputs, used);
      && (forall p :: p in r <==> 0 <= p < |outputs| && Free(outputs[p], used))
      && (forall i, j :: 0 <= i < j < |r| ==> r[i] < r[j])
  {
    if outputs != [] {
      var n := |outputs| - 1;
      RemainingAre(outputs[..n], used);
      assert forall p :: 0 <= p < n ==> outputs[..n][p] == outputs[p];
      var r, before := Remaining(outputs, used), Remaining(outputs[..n], used);
      forall i, j | 0 <= i < j < |r| ensures r[i] < r[j] {
        assert r[i] == before[i] && before[i] in before;
      }
    }
  }

  lemma {:induction false} UnmappedAre(outputs: seq<Output>, recipients: seq<Key>)
    ensures var u := Unmapped(outputs, recipients);
      && (forall key :: key in u <==> key in recipients && TaggedFor(outputs, key) == [])
      && (Distinct(recipients) ==> Distinct(u))
  {
    if recipients != [] {
      var n := |recipients| - 1;
      UnmappedAre(outputs, recipients[..n]);
      assert recipients == recipients[..n] + [recipients[n]];
    }
  }

  lemma {:induction false} AssignedAre(keys: seq<Key>, slots: seq<nat>)
    requires |keys| <= |slots|
    ensures var m := Assigned(keys, slots);
      && m.Keys == (set k | k in keys)
      && (forall k :: k in m ==> exists i :: 0 <= i < |keys| && keys[i] == k && m[k] == [slots[i]])
      && (Distinct(keys) ==> forall i :: 0 <= i < |keys| ==> m[keys[i]] == [slots[i]])
  {
    if keys != [] {
      var n := |keys| - 1;
      AssignedAre(keys[..n], slots);
      assert keys == keys[..n] + [keys[n]];
    }
  }

  /** The routing of a payment with no tag at all is the mixed one too: nothing is tagged, everything remains. */
  function Mixed(outputs: seq<Output>, recipients: seq<Key>): (r: Result) {
    var unmapped, remaining := Unmapped(outputs, recipients), Remaining(outputs, UsedIndices(outputs));
    if |remaining| < |unmapped| then Err(TooFew) else Ok(ByTag(outputs, recipients) + Assigned(unmapped, remaining))
  }

  lemma {:induction false} AllUnmapped(outputs: seq<Output>, recipients: seq<Key>)
    requires !AnyTag(outputs)
    ensures Unmapped(outputs, recipients) == recipients
  {
    if recipients != [] {
      var n := |recipients| - 1;
      AllUnmapped(outputs, recipients[..n]);
      TaggedAre(outputs, recipients[n]);
    }
  }

  lemma {:induction false} AllRemain(outputs: seq<Output>)
    ensures Remaining(outputs, {}) == Positions(|outputs|)
  {
    if outputs != [] { AllRemain(outputs[..|outputs| - 1]); }
  }

  lemma RoutedIsMixed(outputs: seq<Output>, recipients: seq<Key>)
    ensures Routed(outputs, recipients) == Mixed(outputs, recipients)
  {
    if !AnyTag(outputs) {
      AllUnmapped(outputs, recipients);
      AllRemain(outputs);
      assert UsedIndices(outputs) == {};
      forall key ensures TaggedFor(outputs, key) == [] {
        TaggedAre(outputs, key);
      }
      assert ByTag(outputs, recipients) == map[];
    }
  }

  lemma ByTagAlone(outputs: seq<Output>, recipients: seq<Key>)
    ensures ByTag(outputs, recipients) + Assigned([], Remaining(outputs, UsedIndices(outputs))) ==
      ByTag(outputs, recipients)
  {
  }

  /** A routing's keys are exactly the recipients, each with at least one output of the payment; there is one
      if and only if the outputs that remain cover the recipients no tag names. */
  lemma ServesEvery(outputs: seq<Output>, recipients: seq<Key>)
    ensures var r := Routed(outputs, recipients);
      && (r.Ok? <==> |Unmapped(outputs, recipients)| <= |Remaining(outputs, UsedIndices(outputs))|)
      && (r.Ok? ==> r.served.Keys == (set k | k in recipients))
      && (r.Ok? ==> forall k :: k in recipients ==> k in r.served && r.served[k] != [])
      && (r.Ok? ==> forall k, p :: k in r.served && p in r.served[k] ==> 0 <= p < |outputs|)
  {
    RoutedIsMixed(outputs, recipients);
    if Routed(outputs, recipients).Ok? {
      MixedKeys(outputs, recipients);
      forall k | k in Routed(outputs, recipients).served
        ensures forall p :: p in Routed(outputs, recipients).served[k] ==> 0 <= p < |outputs|
      {
        MixedPlaces(outputs, recipients, k);
      }
    }
  }

  lemma MixedKeys(outputs: seq<Output>, recipients: seq<Key>)
    requires Mixed(outputs, recipients).Ok?
    ensures var served := Mixed(outputs, recipients).served;
      served.Keys == (set k | k in recipients) && forall k :: k in recipients ==> k in served && served[k] != []
  {
    UnmappedAre(outputs, recipients);
    AssignedAre(Unmapped(outputs, recipients), Remaining(outputs, UsedIndices(outputs)));
  }

  lemma MixedPlaces(outputs: seq<Output>, recipients: seq<Key>, k: Key)
    requires Mixed(outputs, recipients).Ok? && k in Mixed(outputs, recipients).served
    ensures forall p :: p in Mixed(outputs, recipients).served[k] ==> 0 <= p < |outputs|
  {
    var unmapped, remaining := Unmapped(outputs, recipients), Remaining(outputs, UsedIndices(outputs));
    TaggedAre(outputs, k);
    RemainingAre(outputs, UsedIndices(outputs));
    AssignedAre(unmapped, remaining);
    if k in Assigned(unmapped, remaining) {
      var i :| 0 <= i < |unmapped| && Assigned(unmapped, remaining)[k] == [remaining[i]];
      assert remaining[i] in remaining;
    }
  }

  /** A recipient some output is tagged for gets exactly the outputs tagged for it, in order. */
  lemma ServedByTag(outputs: seq<Output>, recipients: seq<Key>, k: Key)
    requires Routed(outputs, recipients).Ok? && k in recipients
    requires exists p :: 0 <= p < |outputs| && outputs[p].tag == Some(k)
    ensures var served := Routed(outputs, recipients).served;
      && k in served && served[k] == TaggedFor(outputs, k)
      && (forall p :: p in served[k] <==> 0 <= p < |outputs| && outputs[p].tag == Some(k))
      && (forall i, j :: 0 <= i < j < |served[k]| ==> served[k][i] < served[k][j])
  {
    TaggedAre(outputs, k);
    TaggedInOrder(outputs, k, TaggedFor(outputs, k));
    RoutedIsMixed(outputs, recipients);
    UnmappedAre(outputs, recipients);
    AssignedAre(Unmapped(outputs, recipients), Remaining(outputs, UsedIndices(outputs)));
  }

  /** The outputs handed out in order: those without an index, and those whose index no tagged output carries, in the
      payment's order. */
  lemma HandedOutAre(outputs: seq<Output>)
    ensures var r := Remaining(outputs, UsedIndices(outputs));
      && (forall p :: p in r <==>
            && 0 <= p < |outputs|
            && forall q :: 0 <= q < |outputs| && outputs[q].tag.Some? && outputs[q].index.Some? ==>
                 outputs[p].index != outputs[q].index)
      && (forall i, j :: 0 <= i < j < |r| ==> r[i] < r[j])
  {
    RemainingAre(outputs, UsedIndices(outputs));
  }

  /** The recipients they go to: those no output is tagged for, in the order given. */
  lemma {:induction false} HandedToAre(outputs: seq<Output>, recipients: seq<Key>) returns (at: seq<nat>)
    ensures var u := Unmapped(outputs, recipients);
      && |at| == |u| && (forall i :: 0 <= i < |u| ==> at[i] < |recipients| && recipients[at[i]] == u[i])
      && (forall i, j :: 0 <= i < j < |at| ==> at[i] < at[j])
      && (forall k :: k in u <==>
            k in recipients && forall p :: 0 <= p < |outputs| ==> outputs[p].tag != Some(k))
  {
    UnmappedAre(outputs, recipients);
    forall k ensures TaggedFor(outputs, k) == [] <==> forall p :: 0 <= p < |outputs| ==> outputs[p].tag != Some(k) {
      TaggedAre(outputs, k);
      if p :| 0 <= p < |outputs| && outputs[p].tag == Some(k) { assert p in TaggedFor(outputs, k); }
    }
    at := UnmappedAt(outputs, recipients);
  }

  lemma {:induction false} UnmappedAt(outputs: seq<Output>, recipients: seq<Key>) returns (at: seq<nat>)
    ensures var u := Unmapped(outputs, recipients);
      && |at| == |u| && (forall i :: 0 <= i < |u| ==> at[i] < |recipients| && recipients[at[i]] == u[i])
      && (forall i, j :: 0 <= i < j < |at| ==> at[i] < at[j])
  {
    at := [];
    if recipients != [] {
      var n := |recipients| - 1;
      at := UnmappedAt(outputs, recipients[..n]);
      if TaggedFor(outputs, recipients[n]) == [] { at := at + [n]; }
    }
  }

  /** The recipients no tag names get one output each, in order. */
  lemma ServedInOrder(outputs: seq<Output>, recipients: seq<Key>, i: nat)
    requires Routed(outputs, recipients).Ok? && Distinct(recipients) && i < |Unmapped(outputs, recipients)|
    ensures var served := Routed(outputs, recipients).served;
      var unmapped, remaining := Unmapped(outputs, recipients), Remaining(outputs, UsedIndices(outputs));
      && |unmapped| <= |remaining| && TaggedFor(outputs, unmapped[i]) == []
      && unmapped[i] in served && served[unmapped[i]] == [remaining[i]]
  {
    RoutedIsMixed(outputs, recipients);
    UnmappedAre(outputs, recipients);
    AssignedAre(Unmapped(outputs, recipients), Remaining(outputs, UsedIndices(outputs)));
    assert Unmapped(outputs, recipients)[i] in Unmapped(outputs, recipients);
  }

  // -------------------------------------------------------------------------
  // One output, one recipient
  // -------------------------------------------------------------------------

  /** No output serves two recipients. */
  predicate Disjoint(served: map<Key, seq<nat>>) {
    forall a, b :: a in served && b in served && a != b ==> forall p :: p in served[a] ==> p !in served[b]
  }

  /** None of the outputs handed out in order is tagged for a recipient. */
  predicate HandsOutUntagged(outputs: seq<Output>, recipients: seq<Key>) {
    var unmapped, remaining := Unmapped(outputs, recipients), Remaining(outputs, UsedIndices(outputs));
    forall i :: 0 <= i < |unmapped| && i < |remaining| ==> ForNobody(outputs, recipients, remaining[i])
  }

  predicate ForNobody(outputs: seq<Output>, recipients: seq<Key>, p: nat) {
    p < |outputs| && (outputs[p].tag.None? || outputs[p].tag.value !in recipients)
  }

  /** Among distinct recipients no output serves two if and only if none of those handed out in order is tagged
      for a recipient. */
  lemma DisjointExactly(outputs: seq<Output>, recipients: seq<Key>)
    requires Routed(outputs, recipients).Ok? && Distinct(recipients)
    ensures Disjoint(Routed(outputs, recipients).served) <==> HandsOutUntagged(outputs, recipients)
  {
    var served := Routed(outputs, recipients).served;
    var unmapped, remaining := Unmapped(outputs, recipients), Remaining(outputs, UsedIndices(outputs));
    ServesEvery(outputs, recipients);
    if Disjoint(served) {
      forall i | 0 <= i < |unmapped| ensures ForNobody(outputs, recipients, remaining[i]) {
        HandedOutIsForNobody(outputs, recipients, i);
      }
    }
    if HandsOutUntagged(outputs, recipients) {
      forall a, b, p | a in served && b in served && a != b && p in served[a] ensures p !in served[b] {
        OneServes(outputs, recipients, a, b, p);
      }
    }
  }

  lemma HandedOutIsForNobody(outputs: seq<Output>, recipients: seq<Key>, i: nat)
    requires Routed(outputs, recipients).Ok? && Distinct(recipients) && Disjoint(Routed(outputs, recipients).served)
    requires i < |Unmapped(outputs, recipients)|
    ensures i < |Remaining(outputs, UsedIndices(outputs))|
    ensures ForNobody(outputs, recipients, Remaining(outputs, UsedIndices(outputs))[i])
  {
    ServedInOrder(outputs, recipients, i);
    RemainingAre(outputs, UsedIndices(outputs));
    var p := Remaining(outputs, UsedIndices(outputs))[i];
    assert p in Remaining(outputs, UsedIndices(outputs));
    if !ForNobody(outputs, recipients, p) {
      HandedOutTwice(outputs, recipients, i, outputs[p].tag.value);
    }
  }

  /** An output handed out in order and tagged for a recipient serves two. */
  lemma HandedOutTwice(outputs: seq<Output>, recipients: seq<Key>, i: nat, tagged: Key)
    requires Routed(outputs, recipients).Ok? && Distinct(recipients) && i < |Unmapped(outputs, recipients)|
    requires i < |Remaining(outputs, UsedIndices(outputs))| && Remaining(outputs, UsedIndices(outputs))[i] < |outputs|
    requires outputs[Remaining(outputs, UsedIndices(outputs))[i]].tag == Some(tagged) && tagged in recipients
    ensures !Disjoint(Routed(outputs, recipients).served)
  {
    var p, other := Remaining(outputs, UsedIndices(outputs))[i], Unmapped(outputs, recipients)[i];
    var served := Routed(outputs, recipients).served;
    TaggedAre(outputs, tagged);
    assert p in TaggedFor(outputs, tagged);
    ServedByTag(outputs, recipients, tagged);
    ServedInOrder(outputs, recipients, i);
    assert p in served[tagged] && p in served[other] && tagged != other;
  }

  /** How a position comes to serve a key. */
  lemma ServesHow(outputs: seq<Output>, recipients: seq<Key>, k: Key, p: nat)
    requires Routed(outputs, recipients).Ok? && Distinct(recipients)
    requires k in Routed(outputs, recipients).served && p in Routed(outputs, recipients).served[k]
    ensures k in recipients && |Unmapped(outputs, recipients)| <= |Remaining(outputs, UsedIndices(outputs))|
    ensures p < |outputs|
    ensures outputs[p].tag == Some(k)
         || exists i :: 0 <= i < |Unmapped(outputs, recipients)| && Unmapped(outputs, recipients)[i] == k
                        && Remaining(outputs, UsedIndices(outputs))[i] == p
  {
    ServesEvery(outputs, recipients);
    UnmappedAre(outputs, recipients);
    TaggedAre(outputs, k);
    if TaggedFor(outputs, k) != [] {
      ServedByTag(outputs, recipients, k);
    } else {
      var unmapped := Unmapped(outputs, recipients);
      assert k in unmapped;
      var i :| 0 <= i < |unmapped| && unmapped[i] == k;
      ServedInOrder(outputs, recipients, i);
    }
  }

  lemma OneServes(outputs: seq<Output>, recipients: seq<Key>, a: Key, b: Key, p: nat)
    requires Routed(outputs, recipients).Ok? && Distinct(recipients) && HandsOutUntagged(outputs, recipients)
    requires a in Routed(outputs, recipients).served && b in Routed(outputs, recipients).served && a != b
    requires p in Routed(outputs, recipients).served[a]
    ensures p !in Routed(outputs, recipients).served[b]
  {
    if p in Routed(outputs, recipients).served[b] {
      RemainingAre(outputs, UsedIndices(outputs));
      ServesHow(outputs, recipients, a, p);
      ServesHow(outputs, recipients, b, p);
      assert false;
    }
  }

  /** So it is when every tagged output carries its index. */
  lemma IndexedIsDisjoint(outputs: seq<Output>, recipients: seq<Key>)
    requires Routed(outputs, recipients).Ok? && Distinct(recipients)
    requires forall i :: 0 <= i < |outputs| && outputs[i].tag.Some? ==> outputs[i].index.Some?
    ensures Disjoint(Routed(outputs, recipients).served)
  {
    var remaining := Remaining(outputs, UsedIndices(outputs));
    RemainingAre(outputs, UsedIndices(outputs));
    forall i | 0 <= i < |remaining| ensures ForNobody(outputs, recipients, remaining[i]) {
      assert remaining[i] in remaining;
    }
    DisjointExactly(outputs, recipients);
  }

  /** Without an index it need not be: the one output tagged for "A" also serves "B". */
  lemma UnindexedServesTwo()
    ensures Routed([Output(Some("A"), None)], ["A", "B"]).Ok?
    ensures !Disjoint(Routed([Output(Some("A"), None)], ["A", "B"]).served)
  {
    var outputs, recipients := [Output(Some("A"), None)], ["A", "B"];
    assert "A"[0] != "B"[0];
    TaggedAre(outputs, "A");
    TaggedAre(outputs, "B");
    assert outputs[0].tag == Some("A") && 0 in TaggedFor(outputs, "A");
    UnmappedPair(outputs, "A", "B");
    assert outputs[..0] == [];
    assert Remaining(outputs, UsedIndices(outputs)) == [0];
    ServesEvery(outputs, recipients);
    assert !ForNobody(outputs, recipients, [0][0]) by { assert recipients[0] == "A"; }
    DisjointExactly(outputs, recipients);
  }

  lemma UnmappedPair(outputs: seq<Output>, a: Key, b: Key)
    requires TaggedFor(outputs, a) != [] && TaggedFor(outputs, b) == []
    ensures Unmapped(outputs, [a, b]) == [b]
  {
    assert [a, b][..1] == [a] && [a][..0] == [];
    assert Unmapped(outputs, [a]) == [];
  }
}
