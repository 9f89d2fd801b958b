/** The JavaScript string operations the modelled files rely on, over Unicode scalar values. */
module JsString {

  datatype Option<+T> = None | Some(value: T)

  predicate StartsWith(s: string, prefix: string) {
    prefix <= s
  }

  // ---------- trim ----------

  /** WhiteSpace and LineTerminator of ECMAScript: what `trim` removes. */
  predicate IsSpace(c: char) {
    var x := c as int;
    0x9 <= x <= 0xD || x == 0x20 || x == 0xA0 || x == 0x1680 || 0x2000 <= x <= 0x200A
    || x == 0x2028 || x == 0x2029 || x == 0x202F || x == 0x205F || x == 0x3000 || x == 0xFEFF
  }

  function TrimStart(s: string): string {
    if s != [] && IsSpace(s[0]) then TrimStart(s[1..]) else s
  }

  function TrimEnd(s: string): string {
    if s != [] && IsSpace(s[|s| - 1]) then TrimEnd(s[..|s| - 1]) else s
  }

  function Trim(s: string): string {
    TrimEnd(TrimStart(s))
  }

  ghost predicate Trimmed(s: string) {
    s == [] || (!IsSpace(s[0]) && !IsSpace(s[|s| - 1]))
  }

  lemma {:induction false} TrimStartSlice(s: string)
    ensures |TrimStart(s)| <= |s| && TrimStart(s) == s[|s| - |TrimStart(s)|..]
    ensures TrimStart(s) == [] || !IsSpace(TrimStart(s)[0])
  {
    if s != [] && IsSpace(s[0]) {
      TrimStartSlice(s[1..]);
    }
  }

  lemma {:induction false} TrimEndSlice(s: string)
    ensures TrimEnd(s) <= s
    ensures TrimEnd(s) == [] || !IsSpace(TrimEnd(s)[|TrimEnd(s)| - 1])
  {
    if s != [] && IsSpace(s[|s| - 1]) {
      TrimEndSlice(s[..|s| - 1]);
    }
  }

  /** Trimming yields a trimmed piece of the string, and leaves a trimmed string alone. */
  lemma TrimTrims(s: string)
    ensures Trimmed(Trim(s))
    ensures Trimmed(s) ==> Trim(s) == s
    ensures forall c :: c in Trim(s) ==> c in s
  {
    TrimStartSlice(s);
    TrimEndSlice(TrimStart(s));
  }

  /** The white space characters and line terminators of ECMAScript, one by one. */
  lemma WhiteSpaceExactly(c: char)
    ensures IsSpace(c) <==>
            || c in "\t\n\U{B}\U{C}\r \U{A0}\U{1680}\U{2000}\U{2001}\U{2002}\U{2003}\U{2004}\U{2005}\U{2006}"
            || c in "\U{2007}\U{2008}\U{2009}\U{200A}\U{2028}\U{2029}\U{202F}\U{205F}\U{3000}\U{FEFF}"
  {
  }

  lemma {:induction false} TrimStartRemoves(before: string, rest: string)
    requires (forall c :: c in before ==> IsSpace(c)) && (rest == [] || !IsSpace(rest[0]))
    ensures TrimStart(before + rest) == rest
  {
    if before == [] {
      assert before + rest == rest;
    } else {
      hide IsSpace;
      assert before[0] in before && (before + rest)[1..] == before[1..] + rest;
      TrimStartRemoves(before[1..], rest);
    }
  }

  lemma {:induction false} TrimEndRemoves(core: string, after: string)
    requires (forall c :: c in after ==> IsSpace(c)) && (core == [] || !IsSpace(core[|core| - 1]))
    ensures TrimEnd(core + after) == core
  {
    if after == [] {
      assert core + after == core;
    } else {
      hide IsSpace;
      var n := |after| - 1;
      assert after[n] in after && (core + after)[..|core| + n] == core + after[..n];
      TrimEndRemoves(core, after[..n]);
    }
  }

  /** Whatever white space surrounds a trimmed text is removed, and nothing else. */
  lemma TrimRemoves(before: string, core: string, after: string)
    requires core != [] && Trimmed(core) && forall c :: c in before || c in after ==> IsSpace(c)
    ensures Trim(before + core + after) == core
  {
    hide IsSpace;
    assert before + core + after == before + (core + after);
    TrimStartRemoves(before, core + after);
    TrimEndRemoves(core, after);
  }

  // ---------- split and join ----------

  /** Cuts at the first `c`: what precedes it, and what follows if there is one. */
  function Cut(s: string, c: char): (r: (string, Option<string>)) {
    if s == [] then ([], None)
    else if s[0] == c then ([], Some(s[1..]))
    else var (before, after) := Cut(s[1..], c); ([s[0]] + before, after)
  }

  lemma {:induction false} CutAt(a: string, c: char, b: string)
    requires c !in a
    ensures Cut(a + [c] + b, c) == (a, Some(b))
  {
    if a == [] {
      assert (a + [c] + b)[1..] == b;
    } else {
      assert (a + [c] + b)[1..] == a[1..] + [c] + b && [a[0]] + a[1..] == a;
      CutAt(a[1..], c, b);
    }
  }

  lemma {:induction false} CutNowhere(a: string, c: char)
    requires c !in a
    ensures Cut(a, c) == (a, None)
  {
    if a != [] {
      assert [a[0]] + a[1..] == a;
      CutNowhere(a[1..], c);
    }
  }

  /** Nothing is lost in cutting. */
  lemma {:induction false} CutExactly(s: string, c: char)
    ensures var (before, after) := Cut(s, c);
      && c !in before && s == before + if after.Some? then [c] + after.value else []
  {
    if s != [] && s[0] != c {
      CutExactly(s[1..], c);
      assert s == [s[0]] + s[1..];
    }
  }

  function Split(s: string, c: char): (parts: seq<string>)
    ensures |parts| > 0
  {
    if s == [] then [[]]
    else
      var rest := Split(s[1..], c);
      if s[0] == c then [[]] + rest else [[s[0]] + rest[0]] + rest[1..]
  }

  function Join(parts: seq<string>, sep: string): string {
    if |parts| == 0 then []
    else if |parts| == 1 then parts[0]
    else parts[0] + sep + Join(parts[1..], sep)
  }

  lemma {:induction false} SplitOne(a: string, c: char)
    requires c !in a
    ensures Split(a, c) == [a]
  {
    if a != [] {
      assert [a[0]] + a[1..] == a;
      SplitOne(a[1..], c);
    }
  }

  lemma {:induction false} SplitFirst(a: string, c: char, b: string)
    requires c !in a
    ensures Split(a + [c] + b, c) == [a] + Split(b, c)
  {
    if a == [] {
      assert (a + [c] + b)[1..] == b;
    } else {
      assert (a + [c] + b)[1..] == a[1..] + [c] + b && [a[0]] + a[1..] == a;
      SplitFirst(a[1..], c, b);
    }
  }

  /** Joining pieces that do not contain the separator and splitting again gives the pieces back. */
  lemma {:induction false} SplitOfJoin(parts: seq<string>, c: char)
    requires |parts| > 0 && forall p :: p in parts ==> c !in p
    ensures Split(Join(parts, [c]), c) == parts
  {
    if |parts| == 1 {
      SplitOne(parts[0], c);
    } else {
      SplitOfJoin(parts[1..], c);
      SplitFirst(parts[0], c, Join(parts[1..], [c]));
    }
  }

  lemma JoinFirst(a: string, parts: seq<string>, sep: string)
    requires parts != []
    ensures Join([a + parts[0]] + parts[1..], sep) == a + Join(parts, sep)
    ensures Join([a] + parts, sep) == a + sep + Join(parts, sep)
  {
    assert ([a] + parts)[1..] == parts && ([a + parts[0]] + parts[1..])[1..] == parts[1..];
  }

  /** Nothing is lost in splitting. */
  lemma {:induction false} JoinOfSplit(s: string, c: char)
    ensures Join(Split(s, c), [c]) == s
  {
    if s != [] {
      hide Join;
      JoinOfSplit(s[1..], c);
      var rest := Split(s[1..], c);
      assert s == [s[0]] + s[1..];
      JoinFirst([s[0]], rest, [c]);
      JoinFirst([], rest, [c]);
      assert [] + [c] + Join(rest, [c]) == [c] + Join(rest, [c]);
    } else {
      assert Split(s, c) == [[]];
    }
  }

  /** No piece contains the separator, and every character of a piece comes from the string. */
  lemma {:induction false} SplitPieces(s: string, c: char)
    ensures forall p, x :: p in Split(s, c) && x in p ==> x != c && x in s
  {
    if s != [] {
      SplitPieces(s[1..], c);
    }
  }

  /** `.map(part => part.trim()).filter(Boolean)`. */
  function TrimmedParts(parts: seq<string>): seq<string> {
    if parts == [] then []
    else (if Trim(parts[0]) == "" then [] else [Trim(parts[0])]) + TrimmedParts(parts[1..])
  }

  // ---------- letters ----------

  function LowerChar(c: char): char {
    if 'A' <= c <= 'Z' then (c as int + 32) as char else c
  }

  /** Lower-casing of ASCII letters; other characters are left alone. */
  function Lower(s: string): (r: string)
    ensures |r| == |s|
  {
    seq(|s|, i requires 0 <= i < |s| => LowerChar(s[i]))
  }

  /** `s` is `word`, written in capital or small letters. */
  predicate EqualsIgnoringCase(s: string, word: string) {
    && |s| == |word|
    && forall i :: 0 <= i < |s| ==>
         s[i] == word[i] || ('a' <= word[i] <= 'z' && s[i] as int + 32 == word[i] as int)
  }

  lemma LowerExactly(s: string, word: string)
    requires forall c :: c in word ==> !('A' <= c <= 'Z')
    ensures Lower(s) == word <==> EqualsIgnoringCase(s, word)
  {
    assert forall i :: 0 <= i < |word| ==> word[i] in word;
    if EqualsIgnoringCase(s, word) {
      assert forall i :: 0 <= i < |s| ==> Lower(s)[i] == word[i];
    }
    if Lower(s) == word {
      assert forall i :: 0 <= i < |s| ==> LowerChar(s[i]) == word[i];
    }
  }

  function ReplaceChar(s: string, from: char, to: char): (r: string)
    ensures |r| == |s| && forall i :: 0 <= i < |s| ==> r[i] == if s[i] == from then to else s[i]
  {
    seq(|s|, i requires 0 <= i < |s| => if s[i] == from then to else s[i])
  }
}
