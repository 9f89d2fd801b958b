/**
 * The canonical form of key bindings (src/shortcuts/normalize.ts) and the conflict reports that
 * compare canonical forms (src/shortcuts/conflicts.ts).
 */
module Hotkeys {
  import opened JsString

  // ---------- one combination ----------

  function Alias(isMac: bool, token: string): string {
    if token == "=" then "equal"
    else if token == "-" then "minus"
    else if token == "command" || token == "cmd" || token == "mod" then (if isMac then "meta" else "ctrl")
    else if token == "super" then "meta"
    else if token == "control" then "ctrl"
    else if token == "option" then "alt"
    else if token == "escape" then "esc"
    else token
  }

  const MODIFIER_ORDER: seq<string> := ["ctrl", "alt", "shift", "meta"]

  predicate IsModifier(token: string) {
    token in MODIFIER_ORDER
  }

  /** The tokens of some pieces: trimmed, lower-cased, aliased; empty ones are dropped. */
  function TokensOf(isMac: bool, pieces: seq<string>): seq<string> {
    if pieces == [] then []
    else
      var token := Lower(Trim(pieces[0]));
      (if token == "" then [] else [Alias(isMac, token)]) + TokensOf(isMac, pieces[1..])
  }

  function Tokens(isMac: bool, raw: string): seq<string> {
    TokensOf(isMac, Split(raw, '+'))
  }

  function Modifiers(tokens: seq<string>): set<string> {
    set t | t in tokens && IsModifier(t)
  }

  function Others(tokens: seq<string>): seq<string> {
    if tokens == [] then []
    else if IsModifier(tokens[|tokens| - 1]) then Others(tokens[..|tokens| - 1])
    else Others(tokens[..|tokens| - 1]) + [tokens[|tokens| - 1]]
  }

  lemma {:induction false} OthersAre(tokens: seq<string>)
    ensures forall t :: t in Others(tokens) <==> t in tokens && !IsModifier(t)
  {
    hide IsModifier;
    if tokens != [] {
      var n := |tokens| - 1;
      OthersAre(tokens[..n]);
      assert forall t :: t in tokens <==> t in tokens[..n] || t == tokens[n];
    }
  }

  function Ordered(modifiers: set<string>): seq<string> {
    (if "ctrl" in modifiers then ["ctrl"] else []) + (if "alt" in modifiers then ["alt"] else [])
    + (if "shift" in modifiers then ["shift"] else []) + (if "meta" in modifiers then ["meta"] else [])
  }

  /** What a combination comes down to. */
  datatype Combo = Combo(modifiers: set<string>, others: seq<string>)

  function ComboOf(isMac: bool, raw: string): Combo {
    Combo(Modifiers(Tokens(isMac, raw)), Others(Tokens(isMac, raw)))
  }

  function Written(c: Combo): seq<string> {
    Ordered(c.modifiers) + c.others
  }

  function NormalizeSingle(isMac: bool, raw: string): string {
    Join(Written(ComboOf(isMac, raw)), "+")
  }

  lemma OthersNotEmpty(isMac: bool, raw: string)
    ensures forall t :: t in Others(Tokens(isMac, raw)) ==> t != ""
  {
    hide IsModifier;
    TokensAreClean(isMac, raw);
    OthersAre(Tokens(isMac, raw));
  }

  /** The source's function, with its set and its list. */
  method NormalizeSingleHotkey(isMac: bool, raw: string) returns (s: string)
    ensures s == NormalizeSingle(isMac, raw)
  {
    hide IsModifier, Ordered, TokensOf, Join, IsToken;
    var tokens := Tokens(isMac, raw);
    var modifiers: set<string> := {};
    var nonModifiers: seq<string> := [];
    var i := 0;
    while i < |tokens|
      invariant 0 <= i <= |tokens|
      invariant modifiers == Modifiers(tokens[..i]) && nonModifiers == Others(tokens[..i])
    {
      assert tokens[..i + 1][..i] == tokens[..i];
      if IsModifier(tokens[i]) {
        modifiers := modifiers + {tokens[i]};
      } else {
        nonModifiers := nonModifiers + [tokens[i]];
      }
      i := i + 1;
    }
    assert tokens[..|tokens|] == tokens;
    var ordered := Ordered(modifiers);
    var base := Join(nonModifiers, "+");
    OthersNotEmpty(isMac, raw);
    JoinEmpty(nonModifiers, "+");
    JoinNested(ordered, nonModifiers);
    s := if base != "" then Join(ordered + [base], "+") else Join(ordered, "+");
    assert base == "" ==> ordered + nonModifiers == ordered;
  }

  // ---------- chords ----------

  function SplitChord(sequence: string): seq<string> {
    TrimmedParts(Split(sequence, ' '))
  }

  const MAX_CHORD_SEGMENTS: nat := 2

  function FirstTwo(segments: seq<string>): seq<string> {
    if |segments| > MAX_CHORD_SEGMENTS then segments[..MAX_CHORD_SEGMENTS] else segments
  }

  function NormalizeAll(isMac: bool, segments: seq<string>): (r: seq<string>)
    ensures |r| == |segments| && forall i :: 0 <= i < |r| ==> r[i] == NormalizeSingle(isMac, segments[i])
  {
    seq(|segments|, i requires 0 <= i < |segments| => NormalizeSingle(isMac, segments[i]))
  }

  function NormalizeChord(isMac: bool, sequence: string): string {
    Join(NormalizeAll(isMac, FirstTwo(SplitChord(sequence))), " ")
  }

  // ---------- tokens ----------

  ghost predicate IsToken(isMac: bool, t: string) {
    t != "" && '+' !in t && Trimmed(t) && Lower(t) == t && Alias(isMac, t) == t
  }

  lemma LowerTrimmed(s: string)
    requires Trimmed(s)
    ensures Trimmed(Lower(s)) && Lower(Lower(s)) == Lower(s)
    ensures forall c :: c in Lower(s) && (c == '+' || c == ' ') ==> c in s
  {
  }

  lemma AliasTwice(isMac: bool, token: string)
    ensures Alias(isMac, Alias(isMac, token)) == Alias(isMac, token)
  {
  }

  lemma AliasIsLetters(isMac: bool, token: string)
    requires Alias(isMac, token) != token
    ensures Alias(isMac, token) != "" && forall c :: c in Alias(isMac, token) ==> 'a' <= c <= 'z'
  {
  }

  lemma LettersAreToken(t: string)
    requires t != "" && forall c :: c in t ==> 'a' <= c <= 'z'
    ensures '+' !in t && ' ' !in t && Trimmed(t) && Lower(t) == t
  {
    assert t[0] in t && t[|t| - 1] in t;
    assert forall i :: 0 <= i < |t| ==> t[i] in t;
  }

  lemma AliasIsToken(isMac: bool, token: string)
    requires token != "" && '+' !in token && Trimmed(token) && Lower(token) == token
    ensures IsToken(isMac, Alias(isMac, token))
    ensures ' ' !in token ==> ' ' !in Alias(isMac, token)
  {
    hide Trimmed, Lower;
    var t := Alias(isMac, token);
    AliasTwice(isMac, token);
    if t != token {
      AliasIsLetters(isMac, token);
      LettersAreToken(t);
    }
  }

  lemma {:induction false} TokensOfAreClean(isMac: bool, pieces: seq<string>)
    requires forall p :: p in pieces ==> '+' !in p
    ensures forall t :: t in TokensOf(isMac, pieces) ==> IsToken(isMac, t)
    ensures (forall p :: p in pieces ==> ' ' !in p) ==> forall t :: t in TokensOf(isMac, pieces) ==> ' ' !in t
  {
    if pieces != [] {
      TokensOfAreClean(isMac, pieces[1..]);
      TrimTrims(pieces[0]);
      LowerTrimmed(Trim(pieces[0]));
      if Lower(Trim(pieces[0])) != "" {
        assert pieces[0] in pieces;
        AliasIsToken(isMac, Lower(Trim(pieces[0])));
      }
    }
  }

  lemma TokensAreClean(isMac: bool, raw: string)
    ensures forall t :: t in Tokens(isMac, raw) ==> IsToken(isMac, t)
    ensures ' ' !in raw ==> forall t :: t in Tokens(isMac, raw) ==> ' ' !in t
  {
    SplitPieces(raw, '+');
    TokensOfAreClean(isMac, Split(raw, '+'));
  }

  // ---------- joining ----------

  lemma {:induction false} JoinEmpty(parts: seq<string>, sep: string)
    requires forall p :: p in parts ==> p != ""
    ensures Join(parts, sep) == "" <==> parts == []
  {
    if |parts| > 0 {
      assert parts[0] in parts;
    }
  }

  lemma {:induction false} JoinNested(a: seq<string>, b: seq<string>)
    ensures b != [] ==> Join(a + [Join(b, "+")], "+") == Join(a + b, "+")
  {
    if a == [] {
      assert a + b == b && a + [Join(b, "+")] == [Join(b, "+")];
    } else if b != [] {
      JoinNested(a[1..], b);
      assert (a + b)[1..] == a[1..] + b && (a + [Join(b, "+")])[1..] == a[1..] + [Join(b, "+")];
    }
  }

  lemma {:induction false} JoinEnds(parts: seq<string>, sep: string)
    requires parts != [] && forall p :: p in parts ==> p != "" && Trimmed(p)
    ensures Join(parts, sep) != "" && Trimmed(Join(parts, sep))
  {
    assert parts[0] in parts;
    if |parts| > 1 {
      assert forall p :: p in parts[1..] ==> p in parts;
      JoinEnds(parts[1..], sep);
    }
  }

  lemma {:induction false} JoinChars(parts: seq<string>, sep: string, c: char)
    requires c !in sep && forall p :: p in parts ==> c !in p
    ensures c !in Join(parts, sep)
  {
    if |parts| > 0 {
      assert parts[0] in parts;
    }
    if |parts| > 1 {
      JoinChars(parts[1..], sep, c);
    }
  }

  /** Joining clean pieces loses nothing. */
  lemma JoinInjective(a: seq<string>, b: seq<string>, c: char)
    requires forall p :: p in a ==> p != "" && c !in p
    requires forall p :: p in b ==> p != "" && c !in p
    ensures Join(a, [c]) == Join(b, [c]) <==> a == b
  {
    JoinEmpty(a, [c]);
    JoinEmpty(b, [c]);
    if a != [] && b != [] {
      SplitOfJoin(a, c);
      SplitOfJoin(b, c);
    }
  }

  // ---------- what the canonical form determines ----------

  ghost predicate IsCombo(isMac: bool, c: Combo) {
    && (forall t :: t in c.modifiers ==> IsModifier(t))
    && (forall t :: t in c.others ==> IsToken(isMac, t) && !IsModifier(t))
  }

  lemma {:induction false} OthersOfConcat(a: seq<string>, b: seq<string>)
    ensures Others(a + b) == Others(a) + Others(b)
  {
    hide IsModifier;
    if b == [] {
      assert a + b == a;
    } else {
      var n, t := |b| - 1, a + b;
      OthersOfConcat(a, b[..n]);
      assert t != [] && t[|t| - 1] == b[n] && t[..|t| - 1] == a + b[..n];
      assert Others(t) == Others(a + b[..n]) + if IsModifier(b[n]) then [] else [b[n]];
      assert Others(b) == Others(b[..n]) + if IsModifier(b[n]) then [] else [b[n]];
    }
  }

  lemma {:induction false} OthersOfOthers(a: seq<string>)
    requires forall t :: t in a ==> !IsModifier(t)
    ensures Others(a) == a
  {
    if a != [] {
      OthersOfOthers(a[..|a| - 1]);
      assert a[|a| - 1] in a;
    }
  }

  lemma {:induction false} OthersOfModifiers(a: seq<string>)
    requires forall t :: t in a ==> IsModifier(t)
    ensures Others(a) == []
  {
    if a != [] {
      OthersOfModifiers(a[..|a| - 1]);
      assert a[|a| - 1] in a;
    }
  }

  lemma OrderedIs(modifiers: set<string>)
    requires forall t :: t in modifiers ==> IsModifier(t)
    ensures forall t :: t in Ordered(modifiers) <==> t in modifiers
  {
  }

  /** Reading back what was written gives the same modifiers and the same other tokens. */
  lemma WrittenReadsBack(isMac: bool, c: Combo)
    requires IsCombo(isMac, c)
    ensures Modifiers(Written(c)) == c.modifiers && Others(Written(c)) == c.others
    ensures forall t :: t in Written(c) ==> t in c.modifiers || t in c.others
  {
    OrderedIs(c.modifiers);
    OthersOfConcat(Ordered(c.modifiers), c.others);
    OthersOfModifiers(Ordered(c.modifiers));
    OthersOfOthers(c.others);
  }

  lemma ModifiersAreTokens(isMac: bool, t: string)
    requires IsModifier(t)
    ensures IsToken(isMac, t) && ' ' !in t
  {
    assert forall c :: c in t ==> 'a' <= c <= 'z';
    assert Lower(t) == t;
  }

  lemma WrittenIsClean(isMac: bool, raw: string)
    ensures IsCombo(isMac, ComboOf(isMac, raw))
    ensures forall t :: t in Written(ComboOf(isMac, raw)) ==> IsToken(isMac, t) && (' ' !in raw ==> ' ' !in t)
  {
    TokensAreClean(isMac, raw);
    OthersAre(Tokens(isMac, raw));
    var c := ComboOf(isMac, raw);
    WrittenReadsBack(isMac, c);
    forall t | t in Written(c)
      ensures IsToken(isMac, t) && (' ' !in raw ==> ' ' !in t)
    {
      if t in c.modifiers {
        ModifiersAreTokens(isMac, t);
      }
    }
  }

  /** Two combinations have the same canonical form iff they have the same modifiers, aliases
      resolved, and the same other tokens in the same order. */
  lemma SingleFormExactly(isMac: bool, a: string, b: string)
    ensures NormalizeSingle(isMac, a) == NormalizeSingle(isMac, b) <==> ComboOf(isMac, a) == ComboOf(isMac, b)
  {
    WrittenIsClean(isMac, a);
    WrittenIsClean(isMac, b);
    JoinInjective(Written(ComboOf(isMac, a)), Written(ComboOf(isMac, b)), '+');
    WrittenReadsBack(isMac, ComboOf(isMac, a));
    WrittenReadsBack(isMac, ComboOf(isMac, b));
  }

  // ---------- key sequences ----------

  lemma {:induction false} PartsAreClean(parts: seq<string>)
    requires forall p :: p in parts ==> ' ' !in p
    ensures forall s :: s in TrimmedParts(parts) ==> s != "" && ' ' !in s && Trimmed(s)
  {
    if parts != [] {
      PartsAreClean(parts[1..]);
      TrimTrims(parts[0]);
      assert parts[0] in parts;
    }
  }

  lemma SegmentsAreClean(sequence: string)
    ensures forall s :: s in SplitChord(sequence) ==> s != "" && ' ' !in s
  {
    SplitPieces(sequence, ' ');
    PartsAreClean(Split(sequence, ' '));
  }

  /** The segments that count, reduced to combinations; no segment at all counts as an empty one. */
  function Combos(isMac: bool, sequence: string): seq<Combo> {
    var segments := FirstTwo(SplitChord(sequence));
    if segments == [] then [Combo({}, [])]
    else seq(|segments|, i requires 0 <= i < |segments| => ComboOf(isMac, segments[i]))
  }

  lemma SegmentForms(isMac: bool, sequence: string)
    ensures var n := NormalizeAll(isMac, FirstTwo(SplitChord(sequence)));
      forall s :: s in n ==> ' ' !in s
  {
    var segments := FirstTwo(SplitChord(sequence));
    SegmentsAreClean(sequence);
    var n := NormalizeAll(isMac, segments);
    forall i | 0 <= i < |n|
      ensures ' ' !in n[i]
    {
      assert segments[i] in SplitChord(sequence);
      WrittenIsClean(isMac, segments[i]);
      JoinChars(Written(ComboOf(isMac, segments[i])), "+", ' ');
    }
  }

  lemma EmptyCombo(isMac: bool)
    ensures NormalizeSingle(isMac, "") == "" && ComboOf(isMac, "") == Combo({}, [])
  {
    assert Split("", '+') == [""];
    assert TokensOf(isMac, [""]) == [] by {
      assert Lower(Trim("")) == "";
      assert [""][1..] == [];
    }
  }

  lemma NormalizedParts(isMac: bool, a: string, parts: seq<string>)
    requires parts == if FirstTwo(SplitChord(a)) == [] then [""] else FirstTwo(SplitChord(a))
    ensures NormalizeChord(isMac, a) == Join(NormalizeAll(isMac, parts), " ")
    ensures Split(NormalizeChord(isMac, a), ' ') == NormalizeAll(isMac, parts)
  {
    EmptyCombo(isMac);
    SegmentForms(isMac, a);
    var n := NormalizeAll(isMac, parts);
    assert parts == [""] ==> n == [""];
    assert forall s :: s in n ==> ' ' !in s;
    SplitOfJoin(n, ' ');
  }

  /**
   * Two key sequences have the same canonical form iff, segment by segment, they have the same
   * modifiers and the same other tokens.  This holds for every two strings.
   */
  lemma CanonicalFormExactly(isMac: bool, a: string, b: string)
    ensures NormalizeChord(isMac, a) == NormalizeChord(isMac, b) <==> Combos(isMac, a) == Combos(isMac, b)
  {
    hide NormalizeSingle, ComboOf, SplitChord, FirstTwo, Join, Split;
    var p, q := FirstTwo(SplitChord(a)), FirstTwo(SplitChord(b));
    // an empty list of segments joins to the same string as one empty segment
    var p', q' := if p == [] then [""] else p, if q == [] then [""] else q;
    EmptyCombo(isMac);
    NormalizedParts(isMac, a, p');
    NormalizedParts(isMac, b, q');
    var m, n := NormalizeAll(isMac, p'), NormalizeAll(isMac, q');
    assert NormalizeChord(isMac, a) == NormalizeChord(isMac, b) <==> m == n;
    forall i | 0 <= i < |p'| && i < |q'|
      ensures m[i] == n[i] <==> ComboOf(isMac, p'[i]) == ComboOf(isMac, q'[i])
    {
      SingleFormExactly(isMac, p'[i], q'[i]);
    }
    assert |Combos(isMac, a)| == |p'| && forall i :: 0 <= i < |p'| ==> Combos(isMac, a)[i] == ComboOf(isMac, p'[i]);
    assert |Combos(isMac, b)| == |q'| && forall i :: 0 <= i < |q'| ==> Combos(isMac, b)[i] == ComboOf(isMac, q'[i]);
    if Combos(isMac, a) == Combos(isMac, b) {
      assert forall i :: 0 <= i < |p'| ==> m[i] == n[i];
      assert m == n;
    }
    if m == n {
      assert forall i :: 0 <= i < |p'| ==> Combos(isMac, a)[i] == Combos(isMac, b)[i];
    }
  }

  // ---------- what the canonical form looks like ----------

  /** The names that are replaced, on macOS and elsewhere; every other token stays as it is. */
  function AliasTable(isMac: bool): map<string, string> {
    var command := if isMac then "meta" else "ctrl";
    map["=" := "equal", "-" := "minus", "command" := command, "cmd" := command, "mod" := command, "super" := "meta",
        "control" := "ctrl", "option" := "alt", "escape" := "esc"]
  }

  lemma AliasExactly(isMac: bool, token: string)
    ensures Alias(isMac, token) == if token in AliasTable(isMac) then AliasTable(isMac)[token] else token
  {
  }

  lemma {:induction false} TokensAt(isMac: bool, pieces: seq<string>, i: nat)
    requires i < |pieces| && forall p :: p in pieces ==> Trim(p) != ""
    ensures |TokensOf(isMac, pieces)| == |pieces|
    ensures TokensOf(isMac, pieces)[i] == Alias(isMac, Lower(Trim(pieces[i])))
  {
    hide Trim, Alias;
    assert pieces[0] in pieces && forall p :: p in pieces[1..] ==> p in pieces;
    if i > 0 {
      TokensAt(isMac, pieces[1..], i - 1);
    } else if |pieces| > 1 {
      TokensAt(isMac, pieces[1..], 0);
    }
  }

  /** A combination is read piece by piece between its plus signs, without surrounding white space, in small letters
      and with the names of the table replaced. */
  lemma TokensExactly(isMac: bool, pieces: seq<string>, i: nat)
    requires i < |pieces| && forall p :: p in pieces ==> Trim(p) != "" && '+' !in p
    ensures var tokens := Tokens(isMac, Join(pieces, "+"));
      var token := Lower(Trim(pieces[i]));
      && |tokens| == |pieces|
      && tokens[i] == if token in AliasTable(isMac) then AliasTable(isMac)[token] else token
  {
    hide Trim, Lower, Join, AliasTable;
    SplitOfJoin(pieces, '+');
    TokensAt(isMac, pieces, i);
    AliasExactly(isMac, Lower(Trim(pieces[i])));
  }

  /** The place of a modifier in the canonical form; everything else comes after the modifiers. */
  function Place(token: string): nat {
    if token == "ctrl" then 0 else if token == "alt" then 1 else if token == "shift" then 2
    else if token == "meta" then 3 else 4
  }

  lemma OrderedByPlace(modifiers: set<string>, i: nat, j: nat)
    requires i < j < |Ordered(modifiers)|
    ensures Place(Ordered(modifiers)[i]) < Place(Ordered(modifiers)[j]) < 4
  {
  }

  lemma OthersLast(token: string)
    ensures IsModifier(token) <==> Place(token) < 4
  {
  }

  lemma JoinSplits(w: seq<string>)
    requires w != [] && forall t :: t in w ==> '+' !in t
    ensures Split(Join(w, "+"), '+') == w
  {
    SplitOfJoin(w, '+');
  }

  /** The canonical form has the tokens of the combination: each modifier once, in the order ctrl, alt, shift, meta,
      and after them the others, each as often as it stands there and in the same order. */
  lemma FormExactly(isMac: bool, raw: string)
    requires Tokens(isMac, raw) != []
    ensures var tokens := Tokens(isMac, raw);
      var form := Split(NormalizeSingle(isMac, raw), '+');
      && (forall t :: t in form <==> t in tokens)
      && (forall i, j :: 0 <= i < j < |form| && Place(form[j]) < 4 ==> Place(form[i]) < Place(form[j]))
      && Others(form) == Others(tokens)
  {
    hide Tokens, IsModifier, Join, Split, Ordered, Place;
    var tokens := Tokens(isMac, raw);
    var c := ComboOf(isMac, raw);
    var w := Written(c);
    WrittenIsClean(isMac, raw);
    WrittenReadsBack(isMac, c);
    OthersAre(tokens);
    forall t
      ensures t in w <==> t in tokens
    {
      OrderedIs(c.modifiers);
    }
    assert tokens[0] in w;
    JoinSplits(w);
    var n := |Ordered(c.modifiers)|;
    forall j | n <= j < |w|
      ensures !IsModifier(w[j])
    {
      assert w[j] == c.others[j - n] && w[j] in c.others;
    }
    forall i, j | 0 <= i < j < |w| && Place(w[j]) < 4
      ensures Place(w[i]) < Place(w[j])
    {
      OthersLast(w[j]);
      assert j < n;
      OrderedByPlace(c.modifiers, i, j);
    }
  }

  lemma {:induction false} AllTrimmed(segments: seq<string>)
    requires forall s :: s in segments ==> s != "" && Trimmed(s)
    ensures TrimmedParts(segments) == segments
  {
    hide Trim;
    if segments != [] {
      assert segments[0] in segments && forall s :: s in segments[1..] ==> s in segments;
      TrimTrims(segments[0]);
      AllTrimmed(segments[1..]);
    }
  }

  lemma JoinsFew(a: string, b: string)
    ensures Join([a], " ") == a && Join([a, b], " ") == a + " " + b
  {
    assert [a, b][1..] == [b];
  }

  lemma FirstTwoForms(isMac: bool, segments: seq<string>)
    requires segments != []
    ensures NormalizeAll(isMac, FirstTwo(segments)) ==
            if |segments| == 1 then [NormalizeSingle(isMac, segments[0])]
            else [NormalizeSingle(isMac, segments[0]), NormalizeSingle(isMac, segments[1])]
  {
    hide NormalizeSingle;
  }

  lemma ChordFrom(isMac: bool, sequence: string, segments: seq<string>)
    requires SplitChord(sequence) == segments != []
    ensures NormalizeChord(isMac, sequence) ==
            if |segments| == 1 then NormalizeSingle(isMac, segments[0])
            else NormalizeSingle(isMac, segments[0]) + " " + NormalizeSingle(isMac, segments[1])
  {
    hide NormalizeSingle, SplitChord, Join, NormalizeAll, FirstTwo;
    FirstTwoForms(isMac, segments);
    JoinsFew(NormalizeSingle(isMac, segments[0]), if |segments| == 1 then "" else NormalizeSingle(isMac, segments[1]));
  }

  lemma ChordSplits(segments: seq<string>)
    requires segments != [] && forall s :: s in segments ==> s != "" && ' ' !in s && Trimmed(s)
    ensures SplitChord(Join(segments, " ")) == segments
  {
    hide Split, TrimmedParts, Join, Trimmed;
    SplitOfJoin(segments, ' ');
    AllTrimmed(segments);
  }

  /** Of a key sequence the first two segments count, each is brought into canonical form, and one space stands
      between them. */
  lemma ChordExactly(isMac: bool, segments: seq<string>)
    requires segments != [] && forall s :: s in segments ==> s != "" && ' ' !in s && Trimmed(s)
    ensures NormalizeChord(isMac, Join(segments, " ")) ==
            if |segments| == 1 then NormalizeSingle(isMac, segments[0])
            else NormalizeSingle(isMac, segments[0]) + " " + NormalizeSingle(isMac, segments[1])
  {
    hide NormalizeSingle, NormalizeChord, SplitChord, Join, Trimmed;
    ChordSplits(segments);
    ChordFrom(isMac, Join(segments, " "), segments);
  }

  // ---------- normalising twice ----------

  lemma {:induction false} TokensOfTokens(isMac: bool, tokens: seq<string>)
    requires forall t :: t in tokens ==> IsToken(isMac, t)
    ensures TokensOf(isMac, tokens) == tokens
  {
    if tokens != [] {
      hide Alias, Lower, Trim;
      assert tokens[0] in tokens;
      TrimTrims(tokens[0]);
      TokensOfTokens(isMac, tokens[1..]);
    }
  }

  lemma SingleTwice(isMac: bool, raw: string)
    ensures NormalizeSingle(isMac, NormalizeSingle(isMac, raw)) == NormalizeSingle(isMac, raw)
    ensures NormalizeSingle(isMac, raw) != "" ==> Trim(NormalizeSingle(isMac, raw)) == NormalizeSingle(isMac, raw)
  {
    var c := ComboOf(isMac, raw);
    var w := Written(c);
    WrittenIsClean(isMac, raw);
    if w == [] {
      EmptyCombo(isMac);
    } else {
      SplitOfJoin(w, '+');
      TokensOfTokens(isMac, w);
      WrittenReadsBack(isMac, c);
      JoinEnds(w, "+");
      TrimTrims(Join(w, "+"));
    }
  }

  lemma {:induction false} TrimmedPartsStay(parts: seq<string>)
    requires forall p :: p in parts ==> p == "" || Trim(p) == p
    ensures |TrimmedParts(parts)| == |parts| <==> "" !in parts
    ensures |TrimmedParts(parts)| <= |parts|
    ensures "" !in parts ==> TrimmedParts(parts) == parts
  {
    assert Trim("") == "";
    hide Trim;
    if parts != [] {
      assert forall p :: p in parts <==> p == parts[0] || p in parts[1..];
      TrimmedPartsStay(parts[1..]);
      assert parts == [parts[0]] + parts[1..];
    }
  }

  lemma NoTokensNoForm(isMac: bool, raw: string)
    ensures NormalizeSingle(isMac, raw) == "" <==> Tokens(isMac, raw) == []
  {
    var tokens := Tokens(isMac, raw);
    WrittenIsClean(isMac, raw);
    JoinEmpty(Written(ComboOf(isMac, raw)), "+");
    if tokens != [] {
      OthersAre(tokens);
      OrderedIs(Modifiers(tokens));
      assert tokens[0] in tokens;
      assert tokens[0] in Modifiers(tokens) || tokens[0] in Others(tokens);
      assert tokens[0] in Written(ComboOf(isMac, raw));
    }
  }

  /** The segments that count all have a token, or there is at most one. */
  predicate Stable(isMac: bool, a: string) {
    var segments := FirstTwo(SplitChord(a));
    |segments| <= 1 || forall s :: s in segments ==> Tokens(isMac, s) != []
  }

  lemma StableIfAll(isMac: bool, a: string, n: seq<string>)
    requires var segments := FirstTwo(SplitChord(a));
      |n| == |(if segments == [] then [""] else segments)| && "" !in n
      && forall i :: 0 <= i < |n| ==>
          (n[i] == "" <==> Tokens(isMac, (if segments == [] then [""] else segments)[i]) == [])
    ensures Stable(isMac, a)
  {
    var segments := FirstTwo(SplitChord(a));
    forall s | s in segments
      ensures Tokens(isMac, s) != []
    {
      var i :| 0 <= i < |segments| && segments[i] == s;
      assert n[i] in n;
    }
  }

  lemma JoinShort(parts: seq<string>, c: char)
    requires |parts| <= 1 && forall p :: p in parts ==> c !in p
    ensures c !in Join(parts, " ")
  {
  }

  /** Normalising again changes nothing, exactly unless one of two segments has no token. */
  lemma NormalizingTwice(isMac: bool, a: string)
    ensures NormalizeChord(isMac, NormalizeChord(isMac, a)) == NormalizeChord(isMac, a) <==> Stable(isMac, a)
  {
    hide NormalizeSingle, Tokens, Split, Trim;
    var segments := FirstTwo(SplitChord(a));
    var parts := if segments == [] then [""] else segments;
    var n := NormalizeAll(isMac, parts);
    NormalizedParts(isMac, a, parts);
    forall i | 0 <= i < |n|
      ensures (n[i] == "" || Trim(n[i]) == n[i]) && NormalizeSingle(isMac, n[i]) == n[i]
      ensures n[i] == "" <==> Tokens(isMac, parts[i]) == []
    {
      SingleTwice(isMac, parts[i]);
      NoTokensNoForm(isMac, parts[i]);
    }
    TrimmedPartsStay(n);
    EmptyCombo(isMac);
    var again := SplitChord(NormalizeChord(isMac, a));
    assert again == TrimmedParts(n);
    if "" !in n {
      assert NormalizeAll(isMac, n) == n;
      StableIfAll(isMac, a, n);
    } else if |n| == 1 {
      assert n == [""] && again == [];
      assert NormalizeAll(isMac, []) == [];
    } else {
      assert |n| == 2 && |again| <= 1;
      SegmentForms(isMac, NormalizeChord(isMac, a));
      assert ' ' !in Join(NormalizeAll(isMac, again), " ") by {
        JoinShort(NormalizeAll(isMac, again), ' ');
      }
      assert n[1..] == [n[1]];
      assert Join(n, " ") == n[0] + " " + n[1];
      assert Join(n, " ")[|n[0]|] == ' ';
    }
  }

  lemma TwoSegments()
    ensures SplitChord("a +") == ["a", "+"]
  {
    assert "a +" == "a" + [' '] + "+";
    SplitFirst("a", ' ', "+");
    SplitOne("+", ' ');
    TrimTrims("a");
    TrimTrims("+");
    assert ["a", "+"][1..] == ["+"] && ["+"][1..] == [];
  }

  lemma NoTokensInPlus(isMac: bool)
    ensures Tokens(isMac, "+") == []
  {
    assert "+" == "" + ['+'] + "";
    SplitFirst("", '+', "");
    SplitOne("", '+');
    assert Split("+", '+') == ["", ""];
    assert ["", ""][1..] == [""] && [""][1..] == [];
    assert Lower(Trim("")) == "";
    hide Trim, Lower;
    assert TokensOf(isMac, [""]) == [];
  }

  /** For example, normalising `a +` gives `a` and a space, and normalising that drops the space. */
  lemma NotStable(isMac: bool)
    ensures !Stable(isMac, "a +")
    ensures NormalizeChord(isMac, NormalizeChord(isMac, "a +")) != NormalizeChord(isMac, "a +")
  {
    TwoSegments();
    NoTokensInPlus(isMac);
    assert "+" in ["a", "+"];
    hide NormalizeChord, SplitChord, Tokens;
    NormalizingTwice(isMac, "a +");
  }

  // ---------- conflicts ----------

  datatype Scope = GlobalScope | ClipboardScope | SettingsScope | DevicesScope | ModalScope

  datatype Layer = GlobalLayer | PageLayer | ModalLayer

  function ScopeLayer(scope: Scope): Layer {
    match scope
    case GlobalScope => GlobalLayer
    case ModalScope => ModalLayer
    case _ => PageLayer
  }

  datatype Definition = Definition(id: string, keys: seq<string>, scope: Scope)

  datatype Resolved = Resolved(id: string, scope: Scope, resolvedKey: string, normalizedKey: string, layer: Layer)

  function ResolvedOf(isMac: bool, def: Definition, key: string): Resolved {
    Resolved(def.id, def.scope, key, NormalizeChord(isMac, key), ScopeLayer(def.scope))
  }

  function Forms(resolved: seq<Resolved>): set<string> {
    set s | s in resolved :: s.normalizedKey
  }

  /** The keys of a definition, each canonical form once, in order; keys without a canonical form are dropped. */
  function ResolveKeys(isMac: bool, def: Definition, keys: seq<string>): seq<Resolved> {
    if keys == [] then []
    else
      var earlier := ResolveKeys(isMac, def, keys[..|keys| - 1]);
      var s := ResolvedOf(isMac, def, keys[|keys| - 1]);
      if s.normalizedKey == "" || s.normalizedKey in Forms(earlier) then earlier else earlier + [s]
  }

  ghost predicate DistinctForms(r: seq<Resolved>) {
    forall i, j :: 0 <= i < j < |r| ==> r[i].normalizedKey != r[j].normalizedKey
  }

  lemma FormsGrow(r: seq<Resolved>, s: Resolved)
    ensures Forms(r + [s]) == Forms(r) + {s.normalizedKey}
  {
    assert forall x :: x in r + [s] <==> x in r || x == s;
    assert s in r + [s];
  }

  lemma NoForms()
    ensures DistinctForms([]) && Forms([]) == {}
  {
  }

  lemma DistinctGrows(r: seq<Resolved>, s: Resolved)
    requires DistinctForms(r) && s.normalizedKey !in Forms(r)
    ensures DistinctForms(r + [s])
  {
    assert forall i :: 0 <= i < |r| ==> r[i] in r && r[i].normalizedKey in Forms(r);
  }

  /** Exactly the canonical forms of the keys are kept, each of them once. */
  lemma {:induction false} KeysResolvedOnce(isMac: bool, def: Definition, keys: seq<string>)
    ensures forall s :: s in ResolveKeys(isMac, def, keys) ==>
            s.normalizedKey != "" && s == ResolvedOf(isMac, def, s.resolvedKey)
    ensures forall k :: k in keys && NormalizeChord(isMac, k) != "" ==>
            NormalizeChord(isMac, k) in Forms(ResolveKeys(isMac, def, keys))
    ensures DistinctForms(ResolveKeys(isMac, def, keys))
  {
    hide NormalizeChord, Forms, DistinctForms;
    if keys == [] {
      NoForms();
    } else {
      var n := |keys| - 1;
      var earlier := ResolveKeys(isMac, def, keys[..n]);
      var s := ResolvedOf(isMac, def, keys[n]);
      KeysResolvedOnce(isMac, def, keys[..n]);
      FormsGrow(earlier, s);
      if s.normalizedKey !in Forms(earlier) {
        DistinctGrows(earlier, s);
      }
      assert forall k :: k in keys <==> k in keys[..n] || k == keys[n];
    }
  }

  method ResolveDefinition(isMac: bool, def: Definition, keys: seq<string>) returns (mine: seq<Resolved>)
    ensures mine == ResolveKeys(isMac, def, keys)
  {
    hide NormalizeChord;
    var seen: set<string> := {};
    mine := [];
    var i := 0;
    while i < |keys|
      invariant 0 <= i <= |keys| && mine == ResolveKeys(isMac, def, keys[..i])
      invariant seen == Forms(mine)
    {
      assert keys[..i + 1][..i] == keys[..i];
      var s := ResolvedOf(isMac, def, keys[i]);
      if s.normalizedKey != "" && s.normalizedKey !in seen {
        FormsGrow(mine, s);
        seen := seen + {s.normalizedKey};
        mine := mine + [s];
      }
      i := i + 1;
    }
    assert keys[..|keys|] == keys;
  }

  function ResolveAll(isMac: bool, definitions: seq<Definition>, overrides: map<string, seq<string>>): seq<Resolved> {
    if definitions == [] then []
    else
      var def := definitions[|definitions| - 1];
      ResolveAll(isMac, definitions[..|definitions| - 1], overrides)
      + ResolveKeys(isMac, def, if def.id in overrides then overrides[def.id] else def.keys)
  }

  method ResolveShortcuts(isMac: bool, definitions: seq<Definition>, overrides: map<string, seq<string>>)
    returns (resolved: seq<Resolved>)
    ensures resolved == ResolveAll(isMac, definitions, overrides)
  {
    hide ResolveKeys, NormalizeChord;
    resolved := [];
    var d := 0;
    while d < |definitions|
      invariant 0 <= d <= |definitions| && resolved == ResolveAll(isMac, definitions[..d], overrides)
    {
      var def := definitions[d];
      var mine := ResolveDefinition(isMac, def, if def.id in overrides then overrides[def.id] else def.keys);
      assert definitions[..d + 1][..d] == definitions[..d];
      resolved := resolved + mine;
      d := d + 1;
    }
    assert definitions[..|definitions|] == definitions;
  }

  /** Of several keys with the same form the first one is kept. */
  lemma {:induction false} FirstKeyKept(isMac: bool, def: Definition, keys: seq<string>, s: Resolved)
    requires s in ResolveKeys(isMac, def, keys)
    ensures exists i :: 0 <= i < |keys| && keys[i] == s.resolvedKey
                        && forall j :: 0 <= j < i ==> NormalizeChord(isMac, keys[j]) != s.normalizedKey
  {
    hide NormalizeChord, Forms;
    var n := |keys| - 1;
    var earlier := ResolveKeys(isMac, def, keys[..n]);
    if s in earlier {
      FirstKeyKept(isMac, def, keys[..n], s);
      var i :| 0 <= i < n && keys[..n][i] == s.resolvedKey
               && forall j :: 0 <= j < i ==> NormalizeChord(isMac, keys[..n][j]) != s.normalizedKey;
      assert keys[i] == keys[..n][i] && forall j :: 0 <= j < i ==> keys[j] == keys[..n][j];
    } else {
      KeysResolvedOnce(isMac, def, keys[..n]);
      assert s == ResolvedOf(isMac, def, keys[n]);
      forall j | 0 <= j < n
        ensures NormalizeChord(isMac, keys[j]) != s.normalizedKey
      {
        assert keys[..n][j] in keys[..n];
      }
    }
  }

  /** The keys that count for a definition: the user's, if there are any for its id, and its own otherwise. */
  function KeysOf(def: Definition, overrides: map<string, seq<string>>): seq<string> {
    if def.id in overrides then overrides[def.id] else def.keys
  }

  lemma ResolvedFromKeys(isMac: bool, def: Definition, keys: seq<string>, form: string)
    ensures (exists s :: s in ResolveKeys(isMac, def, keys) && s.id == def.id && s.scope == def.scope
                         && s.normalizedKey == form)
            <==> form != "" && exists k :: k in keys && NormalizeChord(isMac, k) == form
  {
    hide NormalizeChord;
    KeysResolvedOnce(isMac, def, keys);
    if s :| s in ResolveKeys(isMac, def, keys) && s.normalizedKey == form {
      FirstKeyKept(isMac, def, keys, s);
    }
    if form != "" {
      if k :| k in keys && NormalizeChord(isMac, k) == form {
        assert form in Forms(ResolveKeys(isMac, def, keys));
        var s :| s in ResolveKeys(isMac, def, keys) && s.normalizedKey == form;
      }
    }
  }

  /** The report knows a form for an id in a scope exactly if a definition with this id and scope has a key of this
      form, the user's keys standing in for its own. */
  lemma {:induction false} ResolvedExactly(isMac: bool, definitions: seq<Definition>,
                                           overrides: map<string, seq<string>>, id: string, scope: Scope, form: string)
    ensures (exists s :: s in ResolveAll(isMac, definitions, overrides) && s.id == id && s.scope == scope
                         && s.normalizedKey == form)
            <==> exists def :: def in definitions && def.id == id && def.scope == scope && form != ""
                               && exists k :: k in KeysOf(def, overrides) && NormalizeChord(isMac, k) == form
  {
    hide NormalizeChord, ResolveKeys;
    if definitions != [] {
      var n := |definitions| - 1;
      var def := definitions[n];
      ResolvedExactly(isMac, definitions[..n], overrides, id, scope, form);
      ResolvedFromKeys(isMac, def, KeysOf(def, overrides), form);
      KeysResolvedOnce(isMac, def, KeysOf(def, overrides));
      assert forall d :: d in definitions <==> d in definitions[..n] || d == def;
      var all, mine := ResolveAll(isMac, definitions[..n], overrides), ResolveKeys(isMac, def, KeysOf(def, overrides));
      assert forall s :: s in ResolveAll(isMac, definitions, overrides) <==> s in all || s in mine;
    }
  }

  datatype Candidate = Candidate(id: string, scope: Scope, key: string)

  /** The shortcuts `getCandidateKeyIssues` reports as an error for a candidate key. */
  function SameScope(isMac: bool, resolved: seq<Resolved>, c: Candidate): (r: seq<Resolved>)
    ensures forall s :: s in r <==>
            s in resolved && NormalizeChord(isMac, c.key) != "" && s.id != c.id && s.scope == c.scope
                                    && s.normalizedKey == NormalizeChord(isMac, c.key)
  {
    if resolved == [] then []
    else
      var rest := SameScope(isMac, resolved[..|resolved| - 1], c);
      var s := resolved[|resolved| - 1];
      assert forall x :: x in resolved <==> x in resolved[..|resolved| - 1] || x == s;
      if NormalizeChord(isMac, c.key) != "" && s.id != c.id && s.scope == c.scope
          && s.normalizedKey == NormalizeChord(isMac, c.key)
      then rest + [s] else rest
  }

  function AsCandidate(s: Resolved): Candidate {
    Candidate(s.id, s.scope, s.resolvedKey)
  }

  lemma {:induction false} ResolvedIsNormalized(isMac: bool, definitions: seq<Definition>,
                                                overrides: map<string, seq<string>>, s: Resolved)
    requires s in ResolveAll(isMac, definitions, overrides)
    ensures s.normalizedKey == NormalizeChord(isMac, s.resolvedKey) && s.normalizedKey != ""
  {
    var def := definitions[|definitions| - 1];
    var keys := if def.id in overrides then overrides[def.id] else def.keys;
    KeysResolvedOnce(isMac, def, keys);
    if s !in ResolveKeys(isMac, def, keys) {
      ResolvedIsNormalized(isMac, definitions[..|definitions| - 1], overrides, s);
    }
  }

  /** Conflict reports are symmetric, and two shortcuts conflict exactly when they share the scope and
      their keys come down to the same combinations. */
  lemma ConflictsAreSymmetric(isMac: bool, definitions: seq<Definition>, overrides: map<string, seq<string>>,
                              s: Resolved, t: Resolved)
    requires s in ResolveAll(isMac, definitions, overrides) && t in ResolveAll(isMac, definitions, overrides)
    ensures var all := ResolveAll(isMac, definitions, overrides);
      && (t in SameScope(isMac, all, AsCandidate(s)) <==> s in SameScope(isMac, all, AsCandidate(t)))
      && (t in SameScope(isMac, all, AsCandidate(s)) <==>
            s.id != t.id && s.scope == t.scope && Combos(isMac, s.resolvedKey) == Combos(isMac, t.resolvedKey))
  {
    hide NormalizeChord, Combos;
    ResolvedIsNormalized(isMac, definitions, overrides, s);
    ResolvedIsNormalized(isMac, definitions, overrides, t);
    CanonicalFormExactly(isMac, s.resolvedKey, t.resolvedKey);
  }

  // ---------- the whole report ----------

  function Order(layer: Layer): int {
    match layer
    case GlobalLayer => 0
    case PageLayer => 100
    case ModalLayer => 200
  }

  datatype Level = SameScopeError | SameLayerWarning | ShadowedByHigher | ShadowsLower

  datatype Issue = Issue(level: Level, related: seq<Resolved>)

  function Where(resolved: seq<Resolved>, p: Resolved -> bool): (r: seq<Resolved>)
    ensures forall s :: s in r <==> s in resolved && p(s)
  {
    if resolved == [] then []
    else
      assert forall s :: s in resolved <==> s == resolved[0] || s in resolved[1..];
      (if p(resolved[0]) then [resolved[0]] else []) + Where(resolved[1..], p)
  }

  /** The layer of the shortcut with an id, or else of a scope. */
  function LayerOf(resolved: seq<Resolved>, id: string, scope: Scope): Layer {
    if resolved == [] then ScopeLayer(scope)
    else if resolved[0].id == id then resolved[0].layer
    else LayerOf(resolved[1..], id, scope)
  }

  function OnLayer(resolved: seq<Resolved>, id: string, form: string, order: int): seq<Resolved> {
    Where(resolved, (s: Resolved) => s.id != id && Order(s.layer) == order && s.normalizedKey == form)
  }

  function Above(resolved: seq<Resolved>, id: string, form: string, order: int): seq<Resolved> {
    Where(resolved, (s: Resolved) => s.id != id && s.normalizedKey == form && Order(s.layer) > order)
  }

  function Below(resolved: seq<Resolved>, id: string, form: string, order: int): seq<Resolved> {
    Where(resolved, (s: Resolved) => s.id != id && s.normalizedKey == form && Order(s.layer) < order)
  }

  function IssueIf(level: Level, related: seq<Resolved>): seq<Issue> {
    if related != [] then [Issue(level, related)] else []
  }

  /** `getCandidateKeyIssues`: an error hides everything else. */
  function CandidateIssues(isMac: bool, resolved: seq<Resolved>, c: Candidate): seq<Issue> {
    var form := NormalizeChord(isMac, c.key);
    var order := Order(LayerOf(resolved, c.id, c.scope));
    if form == "" then []
    else if SameScope(isMac, resolved, c) != [] then [Issue(SameScopeError, SameScope(isMac, resolved, c))]
    else
      IssueIf(SameLayerWarning, OnLayer(resolved, c.id, form, order))
      + IssueIf(ShadowedByHigher, Above(resolved, c.id, form, order))
      + IssueIf(ShadowsLower, Below(resolved, c.id, form, order))
  }

  /** The report mentions `s` at some level. */
  ghost predicate Mentions(issues: seq<Issue>, level: Level, s: Resolved) {
    exists issue :: issue in issues && issue.level == level && s in issue.related
  }

  /** How far to the front the shortcuts of a scope are: those of a dialog before those of a page before global ones. */
  function ScopeRank(scope: Scope): nat {
    match scope
    case GlobalScope => 0
    case ClipboardScope => 1
    case SettingsScope => 1
    case DevicesScope => 1
    case ModalScope => 2
  }

  /** An id has one scope. */
  ghost predicate OneScopeEach(definitions: seq<Definition>) {
    forall d, e :: d in definitions && e in definitions && d.id == e.id ==> d.scope == e.scope
  }

  lemma {:induction false} ResolvedFrom(isMac: bool, definitions: seq<Definition>, overrides: map<string, seq<string>>,
                                        s: Resolved)
    requires s in ResolveAll(isMac, definitions, overrides)
    ensures s.layer == ScopeLayer(s.scope)
    ensures exists d :: d in definitions && d.id == s.id && d.scope == s.scope
  {
    hide NormalizeChord;
    var n := |definitions| - 1;
    var def := definitions[n];
    var keys := if def.id in overrides then overrides[def.id] else def.keys;
    KeysResolvedOnce(isMac, def, keys);
    if s in ResolveKeys(isMac, def, keys) {
      assert def in definitions;
    } else {
      ResolvedFrom(isMac, definitions[..n], overrides, s);
    }
  }

  lemma {:induction false} LayerOfScope(resolved: seq<Resolved>, id: string, scope: Scope)
    requires forall s :: s in resolved && s.id == id ==> s.layer == ScopeLayer(scope)
    ensures LayerOf(resolved, id, scope) == ScopeLayer(scope)
  {
    if resolved != [] {
      assert resolved[0] in resolved && forall s :: s in resolved[1..] ==> s in resolved;
      LayerOfScope(resolved[1..], id, scope);
    }
  }

  lemma RankIsOrder(a: Scope, b: Scope)
    ensures Order(ScopeLayer(a)) < Order(ScopeLayer(b)) <==> ScopeRank(a) < ScopeRank(b)
  {
  }

  lemma ThreeIssues(a: seq<Resolved>, b: seq<Resolved>, c: seq<Resolved>, s: Resolved)
    ensures var issues := IssueIf(SameLayerWarning, a) + IssueIf(ShadowedByHigher, b) + IssueIf(ShadowsLower, c);
      && (Mentions(issues, SameLayerWarning, s) <==> s in a) && (Mentions(issues, ShadowedByHigher, s) <==> s in b)
      && (Mentions(issues, ShadowsLower, s) <==> s in c) && !Mentions(issues, SameScopeError, s)
  {
    var issues := IssueIf(SameLayerWarning, a) + IssueIf(ShadowedByHigher, b) + IssueIf(ShadowsLower, c);
    assert forall i :: i in issues <==>
        || (i == Issue(SameLayerWarning, a) && a != []) || (i == Issue(ShadowedByHigher, b) && b != [])
        || (i == Issue(ShadowsLower, c) && c != []);
    assert s in a ==> Issue(SameLayerWarning, a) in issues;
    assert s in b ==> Issue(ShadowedByHigher, b) in issues;
    assert s in c ==> Issue(ShadowsLower, c) in issues;
  }

  lemma OneIssue(a: seq<Resolved>, level: Level, s: Resolved)
    ensures Mentions([Issue(SameScopeError, a)], level, s) <==> level == SameScopeError && s in a
    ensures !Mentions([], level, s)
  {
    assert Issue(SameScopeError, a) in [Issue(SameScopeError, a)];
  }

  /** Another shortcut has the canonical form of the candidate. */
  ghost predicate Rivals(isMac: bool, c: Candidate, s: Resolved) {
    s.id != c.id && NormalizeChord(isMac, c.key) != "" && s.normalizedKey == NormalizeChord(isMac, c.key)
  }

  /**
   * For every candidate and every shortcut: shortcuts of the candidate's scope with its form are errors; only if there
   * is none, those of other scopes are reported, as a warning, as in front of the candidate or as behind it, according
   * to the ranks of the two scopes; and nothing else is reported.
   */
  lemma IssuesExactly(isMac: bool, definitions: seq<Definition>, overrides: map<string, seq<string>>, c: Candidate,
                      s: Resolved)
    requires OneScopeEach(definitions)
    requires forall d :: d in definitions && d.id == c.id ==> d.scope == c.scope
    requires s in ResolveAll(isMac, definitions, overrides)
    ensures var all := ResolveAll(isMac, definitions, overrides);
      var issues := CandidateIssues(isMac, all, c);
      var clash := exists t :: t in all && Rivals(isMac, c, t) && t.scope == c.scope;
      && (Mentions(issues, SameScopeError, s) <==> Rivals(isMac, c, s) && s.scope == c.scope)
      && (Mentions(issues, SameLayerWarning, s) <==>
            Rivals(isMac, c, s) && !clash && ScopeRank(s.scope) == ScopeRank(c.scope))
      && (Mentions(issues, ShadowedByHigher, s) <==>
            Rivals(isMac, c, s) && !clash && ScopeRank(s.scope) > ScopeRank(c.scope))
      && (Mentions(issues, ShadowsLower, s) <==>
            Rivals(isMac, c, s) && !clash && ScopeRank(s.scope) < ScopeRank(c.scope))
  {
    var all := ResolveAll(isMac, definitions, overrides);
    forall t | t in all
      ensures t.layer == ScopeLayer(t.scope) && (t.id == c.id ==> t.scope == c.scope)
    {
      ResolvedFrom(isMac, definitions, overrides, t);
    }
    LayerOfScope(all, c.id, c.scope);
    RankIsOrder(s.scope, c.scope);
    RankIsOrder(c.scope, s.scope);
    hide NormalizeChord, ResolveAll, Mentions, ScopeLayer, Order, ScopeRank, LayerOf, IssueIf;
    var form, order := NormalizeChord(isMac, c.key), Order(LayerOf(all, c.id, c.scope));
    OneIssue(SameScope(isMac, all, c), SameScopeError, s);
    OneIssue(SameScope(isMac, all, c), SameLayerWarning, s);
    OneIssue(SameScope(isMac, all, c), ShadowedByHigher, s);
    OneIssue(SameScope(isMac, all, c), ShadowsLower, s);
    ThreeIssues(OnLayer(all, c.id, form, order), Above(all, c.id, form, order), Below(all, c.id, form, order), s);
    assert SameScope(isMac, all, c) != [] ==> SameScope(isMac, all, c)[0] in SameScope(isMac, all, c);
  }
}
