/** The LIKE pattern of a retained prefix, and SQLite's matcher for it. */
module LikePrefix {

  /** SQLite folds the twenty-six ASCII letters and nothing else. */
  function Fold(c: char): (r: char) {
    if 'A' <= c <= 'Z' then (c as int + 32) as char else c
  }

  /** Two characters are one and the same, or one ASCII letter in its two cases. */
  predicate SameLetter(a: char, b: char) {
    || a == b
    || ('A' <= a <= 'Z' && b as int == a as int + 32)
    || ('a' <= a <= 'z' && a as int == b as int + 32)
  }

  lemma FoldIs(a: char, b: char)
    ensures Fold(a) == Fold(b) <==> SameLetter(a, b)
  {
  }

  predicate Meta(c: char) {
    c == '\\' || c == '%' || c == '_'
  }

  /** `text LIKE pattern ESCAPE '\'`: `%` any run, `_` any one character, an escaped character itself; a
      pattern that ends in its escape matches nothing. */
  predicate Like(pattern: string, text: string)
    decreases |pattern|, |text|
  {
    if pattern == "" then text == ""
    else if pattern[0] == '%' then LikeAfter(pattern[1..], text)
    else if pattern[0] == '_' then text != "" && Like(pattern[1..], text[1..])
    else if pattern[0] == '\\' then
      |pattern| >= 2 && text != "" && Fold(pattern[1]) == Fold(text[0]) && Like(pattern[2..], text[1..])
    else text != "" && Fold(pattern[0]) == Fold(text[0]) && Like(pattern[1..], text[1..])
  }

  /** Some end of the text matches. */
  predicate LikeAfter(pattern: string, text: string)
    decreases |pattern|, |text| + 1
  {
    Like(pattern, text) || (text != "" && LikeAfter(pattern, text[1..]))
  }

  function Escaped(prefix: string): (r: string) {
    if prefix == "" then ""
    else Escaped(prefix[..|prefix| - 1]) +
         if Meta(prefix[|prefix| - 1]) then ['\\', prefix[|prefix| - 1]] else [prefix[|prefix| - 1]]
  }

  /** Escape the metacharacters of a literal prefix. */
  method EscapeLikePrefix(prefix: string) returns (out: string)
    ensures out == Escaped(prefix)
    ensures forall text :: Like(out + "%", text) <==> BeginsFolded(prefix, text)
  {
    out := "";
    for i := 0 to |prefix|
      invariant out == Escaped(prefix[..i])
    {
      assert prefix[..i + 1][..i] == prefix[..i];
      var c := prefix[i];
      if c == '\\' || c == '%' || c == '_' { out := out + ['\\']; }
      out := out + [c];
    }
    assert prefix[..|prefix|] == prefix;
    forall text ensures Like(out + "%", text) <==> BeginsFolded(prefix, text) { LikeIsPrefix(prefix, text); }
  }

  predicate Begins(prefix: string, text: string) {
    |prefix| <= |text| && text[..|prefix|] == prefix
  }

  /** The text begins with the prefix, ASCII case aside. */
  predicate BeginsFolded(prefix: string, text: string) {
    |prefix| <= |text| && forall i :: 0 <= i < |prefix| ==> Fold(prefix[i]) == Fold(text[i])
  }

  lemma {:induction false} EscapedFirst(prefix: string)
    requires prefix != ""
    ensures Escaped(prefix) == (if Meta(prefix[0]) then ['\\', prefix[0]] else [prefix[0]]) + Escaped(prefix[1..])
  {
    if |prefix| > 1 {
      EscapedFirst(prefix[..|prefix| - 1]);
      assert prefix[..|prefix| - 1][1..] == prefix[1..][..|prefix| - 2];
    }
  }

  lemma {:induction false} LikeAnything(text: string)
    ensures LikeAfter("", text)
    decreases |text|
  {
    if text != "" { LikeAnything(text[1..]); }
  }

  /** The escaped pattern accepts exactly the texts that begin with the prefix up to ASCII case, whatever
      metacharacters the prefix holds. */
  lemma {:induction false} LikeIsPrefix(prefix: string, text: string)
    ensures Like(Escaped(prefix) + "%", text) <==> BeginsFolded(prefix, text)
    decreases |prefix|
  {
    var pattern := Escaped(prefix) + "%";
    if prefix == "" {
      LikeAnything(text);
      assert pattern[1..] == "";
    } else {
      EscapedFirst(prefix);
      var skip := if Meta(prefix[0]) then 2 else 1;
      assert pattern[skip..] == Escaped(prefix[1..]) + "%";
      if text != "" {
        LikeIsPrefix(prefix[1..], text[1..]);
        assert BeginsFolded(prefix, text) <==>
          Fold(prefix[0]) == Fold(text[0]) && BeginsFolded(prefix[1..], text[1..])
        by {
          if Fold(prefix[0]) == Fold(text[0]) && BeginsFolded(prefix[1..], text[1..]) {
            forall i | 0 <= i < |prefix| ensures Fold(prefix[i]) == Fold(text[i]) {
              if i > 0 { assert Fold(prefix[1..][i - 1]) == Fold(text[1..][i - 1]); }
            }
          }
        }
      }
    }
  }

  /** The prefixes under which a box is retained. */
  predicate Retains(prefixes: seq<string>, box: string) {
    exists i :: 0 <= i < |prefixes| && Begins(prefixes[i], box)
  }

  function Patterns(prefixes: seq<string>): (r: seq<string>) {
    seq(|prefixes|, i requires 0 <= i < |prefixes| => Escaped(prefixes[i]) + "%")
  }

  /** The class of boxes the statements hold for retained. */
  predicate InClass(patterns: seq<string>, box: string) {
    exists i :: 0 <= i < |patterns| && Like(patterns[i], box)
  }

  /** The class is the boxes that begin with a prefix up to ASCII case; every box the relay retains is in it. */
  lemma ClassIsFoldedPrefixes(prefixes: seq<string>, box: string)
    ensures InClass(Patterns(prefixes), box) <==> exists i :: 0 <= i < |prefixes| && BeginsFolded(prefixes[i], box)
    ensures Retains(prefixes, box) ==> InClass(Patterns(prefixes), box)
  {
    var patterns := Patterns(prefixes);
    forall i | 0 <= i < |prefixes|
      ensures Like(patterns[i], box) <==> BeginsFolded(prefixes[i], box)
      ensures Begins(prefixes[i], box) ==> BeginsFolded(prefixes[i], box)
    {
      LikeIsPrefix(prefixes[i], box);
      if Begins(prefixes[i], box) {
        forall j | 0 <= j < |prefixes[i]| ensures prefixes[i][j] == box[j] {
          assert box[..|prefixes[i]|][j] == prefixes[i][j];
        }
      }
    }
  }

  /** Every spelling of a prefix in other case begins with a prefix too. */
  ghost predicate CaseClosed(prefixes: seq<string>) {
    forall i, other :: 0 <= i < |prefixes| && Spells(prefixes[i], other) ==> Retains(prefixes, other)
  }

  predicate Spells(prefix: string, other: string) {
    |other| == |prefix| && BeginsFolded(prefix, other)
  }

  predicate Agree(prefixes: seq<string>, box: string) {
    InClass(Patterns(prefixes), box) <==> Retains(prefixes, box)
  }

  /** The statements' class is the relay's own predicate on every box if and only if the prefixes are closed
      under ASCII case. */
  lemma ClassIsRetainedExactly(prefixes: seq<string>)
    ensures (forall box :: Agree(prefixes, box)) <==> CaseClosed(prefixes)
  {
    if forall box :: Agree(prefixes, box) {
      forall i, other | 0 <= i < |prefixes| && Spells(prefixes[i], other) ensures Retains(prefixes, other) {
        assert Agree(prefixes, other);
        ClassIsFoldedPrefixes(prefixes, other);
      }
    }
    if CaseClosed(prefixes) {
      forall box ensures Agree(prefixes, box) {
        ClassIsFoldedPrefixes(prefixes, box);
        if i :| 0 <= i < |prefixes| && BeginsFolded(prefixes[i], box) { ClosedRetains(prefixes, box, i); }
      }
    }
  }

  lemma ClosedRetains(prefixes: seq<string>, box: string, i: nat)
    requires CaseClosed(prefixes) && i < |prefixes| && BeginsFolded(prefixes[i], box)
    ensures Retains(prefixes, box)
  {
    var other := box[..|prefixes[i]|];
    assert BeginsFolded(prefixes[i], other) && Spells(prefixes[i], other);
    assert Retains(prefixes, other);
    var j :| 0 <= j < |prefixes| && Begins(prefixes[j], other);
    assert box[..|prefixes[j]|] == other[..|prefixes[j]|];
    assert Begins(prefixes[j], box);
  }

  /** They do not always agree: LIKE marks a box the relay's own predicate does not retain. */
  lemma ClassIsWider()
    ensures InClass(Patterns(["low_game_"]), "LOW_GAME_7") && !Retains(["low_game_"], "LOW_GAME_7")
  {
    ClassIsFoldedPrefixes(["low_game_"], "LOW_GAME_7");
    assert BeginsFolded(["low_game_"][0], "LOW_GAME_7");
    assert "LOW_GAME_7"[..9][0] != "low_game_"[0];
  }
}
