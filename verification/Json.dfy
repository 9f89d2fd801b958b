/**
 * JSON text (RFC 8259) as `JSON.stringify` writes it, without white space, and `JSON.parse` reads it.
 * Numbers are integers; a fraction or an exponent makes the parser fail.
 */
module Json {
  import opened JsString
  import Decimal

  datatype Json =
    | Null
    | Bool(b: bool)
    | Num(n: int)
    | Str(s: string)
    | Arr(items: seq<Json>)
    | Obj(members: seq<Member>)

  datatype Member = Member(key: string, value: Json)

  // ---------- stringify ----------

  function HexDigit(x: int): char
    requires 0 <= x < 16
  {
    if x < 10 then (x + 48) as char else (x + 87) as char
  }

  function Escape(c: char): string {
    if c == '\"' then "\\\""
    else if c == '\\' then "\\\\"
    else if c == '\U{8}' then "\\b"
    else if c == '\U{C}' then "\\f"
    else if c == '\n' then "\\n"
    else if c == '\r' then "\\r"
    else if c == '\t' then "\\t"
    else if c as int < 0x20 then "\\u00" + [HexDigit(c as int / 16), HexDigit(c as int % 16)]
    else [c]
  }

  function EscapeAll(s: string): string {
    if s == [] then [] else Escape(s[0]) + EscapeAll(s[1..])
  }

  function Quote(s: string): string {
    "\"" + EscapeAll(s) + "\""
  }

  function Stringify(j: Json): string
    decreases j, 1
  {
    match j
    case Null => "null"
    case Bool(b) => if b then "true" else "false"
    case Num(n) => if n < 0 then "-" + Decimal.FromNat(-n) else Decimal.FromNat(n)
    case Str(s) => Quote(s)
    case Arr(items) => "[" + StringifyItems(items) + "]"
    case Obj(members) => "{" + StringifyMembers(members) + "}"
  }

  function StringifyItems(items: seq<Json>): string
    decreases items, 0
  {
    if items == [] then []
    else if |items| == 1 then Stringify(items[0])
    else Stringify(items[0]) + "," + StringifyItems(items[1..])
  }

  function StringifyMember(m: Member): string
    decreases m, 2
  {
    Quote(m.key) + ":" + Stringify(m.value)
  }

  function StringifyMembers(members: seq<Member>): string
    decreases members, 0
  {
    if members == [] then []
    else if |members| == 1 then StringifyMember(members[0])
    else StringifyMember(members[0]) + "," + StringifyMembers(members[1..])
  }

  // ---------- parse ----------

  predicate IsJsonSpace(c: char) {
    c in {' ', '\t', '\n', '\r'}
  }

  function SkipSpace(s: string): (r: string)
    ensures |r| <= |s|
  {
    if s != [] && IsJsonSpace(s[0]) then SkipSpace(s[1..]) else s
  }

  function HexValue(c: char): (r: Option<int>)
    ensures r.Some? ==> 0 <= r.value < 16
  {
    if '0' <= c <= '9' then Some(c as int - 48)
    else if 'a' <= c <= 'f' then Some(c as int - 87)
    else if 'A' <= c <= 'F' then Some(c as int - 55)
    else None
  }

  function Hex4(s: string): (r: Option<int>)
    requires |s| >= 4
    ensures r.Some? ==> 0 <= r.value < 0x1_0000
  {
    match (HexValue(s[0]), HexValue(s[1]), HexValue(s[2]), HexValue(s[3]))
    case (Some(a), Some(b), Some(c), Some(d)) => Some(a * 4096 + b * 256 + c * 16 + d)
    case _ => None
  }

  /** One escape sequence, after its backslash.  Escaped lone surrogates are not scalar values: no result. */
  function ParseEscape(s: string): (r: Option<(char, string)>)
    ensures r.Some? ==> |r.value.1| < |s|
  {
    if s == [] then None
    else if s[0] == '\"' || s[0] == '\\' || s[0] == '/' then Some((s[0], s[1..]))
    else if s[0] == 'b' then Some(('\U{8}', s[1..]))
    else if s[0] == 'f' then Some(('\U{C}', s[1..]))
    else if s[0] == 'n' then Some(('\n', s[1..]))
    else if s[0] == 'r' then Some(('\r', s[1..]))
    else if s[0] == 't' then Some(('\t', s[1..]))
    else if s[0] == 'u' && |s| >= 5 then
      match Hex4(s[1..])
      case None => None
      case Some(x) =>
        if x < 0xD800 || 0xE000 <= x then Some((x as char, s[5..]))
        else if x < 0xDC00 && |s| >= 11 && s[5] == '\\' && s[6] == 'u' then
          match Hex4(s[7..])
          case None => None
          case Some(y) =>
            if 0xDC00 <= y < 0xE000
            then Some((((x - 0xD800) * 1024 + (y - 0xDC00) + 0x1_0000) as char, s[11..]))
            else None
        else None
    else None
  }

  /** The rest of a string literal, after its opening quote. */
  function ParseString(s: string): (r: Option<(string, string)>)
    ensures r.Some? ==> |r.value.1| < |s|
    decreases |s|
  {
    if s == [] || s[0] as int < 0x20 then None
    else if s[0] == '\"' then Some(("", s[1..]))
    else if s[0] == '\\' then
      match ParseEscape(s[1..])
      case None => None
      case Some((c, after)) =>
        match ParseString(after)
        case None => None
        case Some((tail, rest)) => Some(([c] + tail, rest))
    else
      match ParseString(s[1..])
      case None => None
      case Some((tail, rest)) => Some(([s[0]] + tail, rest))
  }

  function ParseNumber(s: string): (r: Option<(int, string)>)
    ensures r.Some? ==> |r.value.1| < |s|
  {
    var negative := StartsWith(s, "-");
    var body := if negative then s[1..] else s;
    var digits := Decimal.DigitPrefix(body);
    var rest := body[|digits|..];
    if digits == "" || (|digits| > 1 && digits[0] == '0') then None
    else if rest != "" && rest[0] in {'.', 'e', 'E'} then None
    else
      var n: int := Decimal.ToNat(digits);
      Some((if negative then -n else n, rest))
  }

  function ParseWord(s: string, word: string, j: Json): (r: Option<(Json, string)>)
    requires word != []
    ensures r.Some? ==> |r.value.1| < |s|
  {
    if StartsWith(s, word) then Some((j, s[|word|..])) else None
  }

  function ParseValue(text: string): (r: Option<(Json, string)>)
    ensures r.Some? ==> |r.value.1| < |text|
    decreases |text|, 1
  {
    var s := SkipSpace(text);
    if s == [] then None
    else if s[0] == '{' then
      var t := SkipSpace(s[1..]);
      if StartsWith(t, "}") then Some((Obj([]), t[1..]))
      else
        match ParseMembers(t)
        case None => None
        case Some((members, rest)) => Some((Obj(members), rest))
    else if s[0] == '[' then
      var t := SkipSpace(s[1..]);
      if StartsWith(t, "]") then Some((Arr([]), t[1..]))
      else
        match ParseItems(t)
        case None => None
        case Some((items, rest)) => Some((Arr(items), rest))
    else if s[0] == '\"' then
      match ParseString(s[1..])
      case None => None
      case Some((str, rest)) => Some((Str(str), rest))
    else if s[0] == 'n' then ParseWord(s, "null", Null)
    else if s[0] == 't' then ParseWord(s, "true", Bool(true))
    else if s[0] == 'f' then ParseWord(s, "false", Bool(false))
    else
      match ParseNumber(s)
      case None => None
      case Some((n, rest)) => Some((Num(n), rest))
  }

  /** One or more items, up to and including the closing bracket. */
  function ParseItems(text: string): (r: Option<(seq<Json>, string)>)
    ensures r.Some? ==> |r.value.1| < |text|
    decreases |text|, 2
  {
    match ParseValue(text)
    case None => None
    case Some((item, after)) =>
      var t := SkipSpace(after);
      if StartsWith(t, "]") then Some(([item], t[1..]))
      else if StartsWith(t, ",") then
        match ParseItems(t[1..])
        case None => None
        case Some((items, rest)) => Some(([item] + items, rest))
      else None
  }

  function ParseMember(text: string): (r: Option<(Member, string)>)
    ensures r.Some? ==> |r.value.1| < |text|
    decreases |text|, 2
  {
    var s := SkipSpace(text);
    if !StartsWith(s, "\"") then None
    else
      match ParseString(s[1..])
      case None => None
      case Some((key, after)) =>
        var t := SkipSpace(after);
        if !StartsWith(t, ":") then None
        else
          match ParseValue(t[1..])
          case None => None
          case Some((value, rest)) => Some((Member(key, value), rest))
  }

  /** One or more members, up to and including the closing brace. */
  function ParseMembers(text: string): (r: Option<(seq<Member>, string)>)
    ensures r.Some? ==> |r.value.1| < |text|
    decreases |text|, 3
  {
    match ParseMember(text)
    case None => None
    case Some((member, after)) =>
      var t := SkipSpace(after);
      if StartsWith(t, "}") then Some(([member], t[1..]))
      else if StartsWith(t, ",") then
        match ParseMembers(t[1..])
        case None => None
        case Some((members, rest)) => Some(([member] + members, rest))
      else None
  }

  /** `JSON.parse`; `None` is SyntaxError. */
  function Parse(text: string): Option<Json> {
    match ParseValue(text)
    case None => None
    case Some((j, rest)) => if SkipSpace(rest) == [] then Some(j) else None
  }

  // ---------- what else is read ----------

  /** White space before a value or a member makes no difference. */
  lemma {:induction false} SpacesSkipped(space: string, text: string)
    requires forall c :: c in space ==> c in " \t\n\r"
    ensures SkipSpace(space + text) == SkipSpace(text)
    ensures ParseValue(space + text) == ParseValue(text) && ParseMember(space + text) == ParseMember(text)
  {
    hide ParseItems, ParseMembers, ParseString, ParseNumber, ParseWord;
    if space == [] {
      assert space + text == text;
    } else {
      assert space[0] in space && (space + text)[1..] == space[1..] + text;
      SpacesSkipped(space[1..], text);
    }
  }

  /** The value of a hexadecimal digit, in small or capital letters. */
  lemma HexExactly(c: char, i: nat)
    requires i < 16
    ensures HexValue(c) == Some(i) <==> c == "0123456789abcdef"[i] || c == "0123456789ABCDEF"[i]
  {
  }

  /** Every escape that JSON knows is read; of those by number, what is no surrogate. */
  lemma EscapesRead(rest: string, a: char, b: char, c: char, d: char)
    ensures ParseEscape("\"" + rest) == Some(('\"', rest)) && ParseEscape("\\" + rest) == Some(('\\', rest))
    ensures ParseEscape("/" + rest) == Some(('/', rest)) && ParseEscape("b" + rest) == Some(('\U{8}', rest))
    ensures ParseEscape("f" + rest) == Some(('\U{C}', rest)) && ParseEscape("n" + rest) == Some(('\n', rest))
    ensures ParseEscape("r" + rest) == Some(('\r', rest)) && ParseEscape("t" + rest) == Some(('\t', rest))
    ensures HexValue(a).Some? && HexValue(b).Some? && HexValue(c).Some? && HexValue(d).Some? ==>
              var x := HexValue(a).value * 4096 + HexValue(b).value * 256 + HexValue(c).value * 16 + HexValue(d).value;
              0 <= x < 0xD800 || 0xE000 <= x < 0x1_0000 ==>
                ParseEscape("u" + [a, b, c, d] + rest) == Some((x as char, rest))
  {
    hide HexValue;
    assert forall x: char :: ([x] + rest)[1..] == rest;
    var t := "u" + [a, b, c, d] + rest;
    assert t[1..][0] == a && t[1..][1] == b && t[1..][2] == c && t[1..][3] == d && t[5..] == rest;
  }

  // ---------- the form of the text ----------

  /** Which characters are escaped: two of them by a backslash, five by their names, the other control characters
      by their number in small hexadecimal digits, and no others. */
  lemma EscapedExactly(c: char)
    ensures Escape('\"') == "\\\"" && Escape('\\') == "\\\\" && Escape('\U{8}') == "\\b" && Escape('\U{C}') == "\\f"
    ensures Escape('\n') == "\\n" && Escape('\r') == "\\r" && Escape('\t') == "\\t"
    ensures c as int < 0x20 && c !in {'\U{8}', '\t', '\n', '\U{C}', '\r'} ==>
              && |Escape(c)| == 6 && Escape(c)[..4] == "\\u00" && Escape(c)[4] in "01"
              && Escape(c)[5] in "0123456789abcdef"
              && Hex4(Escape(c)[2..]) == Some(c as int)
    ensures Escape(c) == [c] <==> c as int >= 0x20 && c != '\"' && c != '\\'
  {
    if c as int < 0x20 {
      assert HexValue(HexDigit(c as int / 16)) == Some(c as int / 16);
      assert HexValue(HexDigit(c as int % 16)) == Some(c as int % 16);
    }
  }

  lemma {:induction false} EscapesConcat(a: string, b: string)
    ensures EscapeAll(a + b) == EscapeAll(a) + EscapeAll(b)
  {
    hide Escape;
    if a == [] {
      assert a + b == b;
    } else {
      assert (a + b)[1..] == a[1..] + b;
      EscapesConcat(a[1..], b);
    }
  }

  /** Text without such characters is written as it is. */
  lemma {:induction false} PlainlyEscaped(s: string)
    requires forall c :: c in s ==> c as int >= 0x20 && c != '\"' && c != '\\'
    ensures EscapeAll(s) == s
  {
    if s != [] {
      EscapedExactly(s[0]);
      hide Escape, Quote;
      assert s[0] in s && s == [s[0]] + s[1..] && forall c :: c in s[1..] ==> c in s;
      PlainlyEscaped(s[1..]);
    }
  }

  function MemberTexts(members: seq<Member>): (texts: seq<string>)
    ensures |texts| == |members|
  {
    seq(|members|, i requires 0 <= i < |members| => StringifyMember(members[i]))
  }

  function ItemTexts(items: seq<Json>): (texts: seq<string>)
    ensures |texts| == |items|
  {
    seq(|items|, i requires 0 <= i < |items| => Stringify(items[i]))
  }

  /** Members and items are separated by a comma and nothing else. */
  lemma {:induction false} MembersJoined(members: seq<Member>)
    ensures StringifyMembers(members) == Join(MemberTexts(members), ",")
  {
    hide StringifyMember;
    if |members| > 1 {
      MembersJoined(members[1..]);
      assert MemberTexts(members)[1..] == MemberTexts(members[1..]);
    }
  }

  lemma {:induction false} ItemsJoined(items: seq<Json>)
    ensures StringifyItems(items) == Join(ItemTexts(items), ",")
  {
    hide Stringify;
    if |items| > 1 {
      ItemsJoined(items[1..]);
      assert ItemTexts(items)[1..] == ItemTexts(items[1..]);
    }
  }

  // ---------- round trip ----------

  /** What can follow a value inside JSON text. */
  predicate Delimited(rest: string) {
    rest == [] || rest[0] in {',', '}', ']'}
  }

  lemma EscapeParses(c: char, rest: string)
    ensures Escape(c) != []
    ensures Escape(c)[0] == '\\' ==> ParseEscape((Escape(c) + rest)[1..]) == Some((c, rest))
    ensures Escape(c)[0] != '\\' ==> Escape(c) == [c] && c != '\"' && c as int >= 0x20
  {
    var e := Escape(c) + rest;
    if c as int < 0x20 && |Escape(c)| == 6 {
      var t := e[1..];
      assert t[1..][0] == '0' && t[1..][1] == '0';
      assert HexValue(HexDigit(c as int / 16)) == Some(c as int / 16);
      assert HexValue(HexDigit(c as int % 16)) == Some(c as int % 16);
      assert t[5..] == rest;
    } else if |Escape(c)| == 2 {
      assert e[1..][1..] == rest;
    }
  }

  lemma CharParses(c: char, tail: string, s: string, rest: string)
    requires ParseString(tail) == Some((s, rest))
    ensures ParseString(Escape(c) + tail) == Some(([c] + s, rest))
  {
    EscapeParses(c, tail);
    hide Escape, ParseEscape;
    var text := Escape(c) + tail;
    assert text[0] == Escape(c)[0];
    if Escape(c)[0] != '\\' {
      assert text[1..] == tail;
    }
  }

  lemma {:induction false} StringParses(s: string, rest: string)
    ensures ParseString(EscapeAll(s) + "\"" + rest) == Some((s, rest))
  {
    if s == [] {
      assert EscapeAll(s) + "\"" + rest == "\"" + rest;
      assert ("\"" + rest)[1..] == rest;
    } else {
      hide Escape, ParseEscape;
      var tail := EscapeAll(s[1..]) + "\"" + rest;
      assert EscapeAll(s) + "\"" + rest == Escape(s[0]) + tail;
      StringParses(s[1..], rest);
      CharParses(s[0], tail, s[1..], rest);
      assert [s[0]] + s[1..] == s;
    }
  }

  lemma DigitsParse(n: nat, rest: string)
    requires Delimited(rest)
    ensures var text := Decimal.FromNat(n) + rest;
      && text != [] && Decimal.IsDigit(text[0])
      && ParseNumber(text) == Some((n as int, rest))
      && ParseNumber("-" + text) == Some((0 - n as int, rest))
  {
    hide Decimal.FromNat, Decimal.ToNat, Decimal.DigitPrefix;
    var digits := Decimal.FromNat(n);
    Decimal.NumeralOf(n);
    Decimal.DigitPrefixIs(digits, rest);
    var text := digits + rest;
    assert text[0] == digits[0] && ("-" + text)[1..] == text;
    assert text[|digits|..] == rest;
  }

  lemma WordParses(j: Json, rest: string)
    requires j.Null? || j.Bool?
    ensures ParseValue(Stringify(j) + rest) == Some((j, rest))
  {
    hide ParseItems, ParseMembers, ParseString, ParseNumber;
    var word := Stringify(j);
    var text := word + rest;
    assert text[0] == word[0] && text[|word|..] == rest && StartsWith(text, word);
    assert SkipSpace(text) == text;
  }

  lemma NumberParses(n: int, rest: string)
    requires Delimited(rest)
    ensures ParseValue(Stringify(Num(n)) + rest) == Some((Num(n), rest))
  {
    hide ParseItems, ParseMembers, ParseString, ParseNumber, ParseWord, Decimal.FromNat;
    var text := Stringify(Num(n)) + rest;
    DigitsParse(if n < 0 then -n else n, rest);
    assert n < 0 ==> text == "-" + (Decimal.FromNat(-n) + rest);
    assert SkipSpace(text) == text;
  }

  lemma QuotedParses(s: string, rest: string)
    ensures ParseValue(Stringify(Str(s)) + rest) == Some((Str(s), rest))
  {
    hide ParseItems, ParseMembers, ParseString, ParseNumber, ParseWord, EscapeAll;
    var text := Stringify(Str(s)) + rest;
    StringParses(s, rest);
    assert text[1..] == EscapeAll(s) + "\"" + rest && SkipSpace(text) == text;
  }

  lemma ScalarParses(j: Json, rest: string)
    requires Delimited(rest) && !j.Arr? && !j.Obj?
    ensures ParseValue(Stringify(j) + rest) == Some((j, rest))
  {
    hide ParseValue, Stringify;
    match j
    case Num(n) => NumberParses(n, rest);
    case Str(s) => QuotedParses(s, rest);
    case _ => WordParses(j, rest);
  }

  lemma BracketParses(t: string)
    requires t != [] && !IsJsonSpace(t[0])
    ensures ParseValue("[" + t) ==
            if t[0] == ']' then Some((Arr([]), t[1..]))
            else match ParseItems(t) case None => None case Some((items, rest)) => Some((Arr(items), rest))
  {
    hide ParseItems, ParseMembers, ParseString, ParseNumber, ParseWord;
    assert ("[" + t)[1..] == t && SkipSpace("[" + t) == "[" + t;
  }

  lemma BraceParses(t: string)
    requires t != [] && !IsJsonSpace(t[0])
    ensures ParseValue("{" + t) ==
            if t[0] == '}' then Some((Obj([]), t[1..]))
            else match ParseMembers(t) case None => None case Some((members, rest)) => Some((Obj(members), rest))
  {
    hide ParseItems, ParseMembers, ParseString, ParseNumber, ParseWord;
    assert ("{" + t)[1..] == t && SkipSpace("{" + t) == "{" + t;
  }

  lemma ArrayParses(items: seq<Json>, rest: string)
    requires items != [] ==>
               var text := StringifyItems(items) + "]" + rest;
               text[0] != ']' && !IsJsonSpace(text[0]) && ParseItems(text) == Some((items, rest))
    ensures ParseValue(Stringify(Arr(items)) + rest) == Some((Arr(items), rest))
  {
    assert StringifyItems([]) == "";
    hide ParseItems, ParseValue, StringifyItems;
    var t := StringifyItems(items) + "]" + rest;
    assert Stringify(Arr(items)) + rest == "[" + t;
    BracketParses(t);
    assert items == [] ==> t[1..] == rest;
  }

  lemma ObjectParses(members: seq<Member>, rest: string)
    requires members != [] ==>
               var text := StringifyMembers(members) + "}" + rest;
               text[0] == '\"' && ParseMembers(text) == Some((members, rest))
    ensures ParseValue(Stringify(Obj(members)) + rest) == Some((Obj(members), rest))
  {
    assert StringifyMembers([]) == "";
    hide ParseMembers, ParseValue, StringifyMembers;
    var t := StringifyMembers(members) + "}" + rest;
    assert Stringify(Obj(members)) + rest == "{" + t;
    BraceParses(t);
    assert members == [] ==> t[1..] == rest;
  }

  /** Parsing reads back exactly one value, whatever it is, and stops at its end. */
  lemma {:induction false} ValueParses(j: Json, rest: string)
    requires Delimited(rest)
    ensures ParseValue(Stringify(j) + rest) == Some((j, rest))
    decreases j, 1
  {
    hide ParseValue, ParseItems, ParseMembers, Stringify, StringifyItems, StringifyMembers;
    match j
    case Arr(items) =>
      if items != [] {
        ItemsParse(items, rest);
      }
      ArrayParses(items, rest);
    case Obj(members) =>
      if members != [] {
        MembersParse(members, rest);
      }
      ObjectParses(members, rest);
    case _ => ScalarParses(j, rest);
  }

  lemma LastItemParses(text: string, item: Json, rest: string)
    requires ParseValue(text) == Some((item, "]" + rest))
    ensures ParseItems(text) == Some(([item], rest))
  {
    hide ParseValue;
    assert ("]" + rest)[1..] == rest;
  }

  lemma OneItemParses(text: string, item: Json, tail: string)
    requires ParseValue(text) == Some((item, "," + tail)) && ParseItems(tail).Some?
    ensures ParseItems(text) == Some(([item] + ParseItems(tail).value.0, ParseItems(tail).value.1))
  {
    hide ParseValue;
    assert ("," + tail)[1..] == tail;
  }

  lemma StringifyStarts(j: Json)
    ensures Stringify(j) != [] && Stringify(j)[0] != ']' && !IsJsonSpace(Stringify(j)[0])
    ensures Stringify(j)[0] <= '~'
  {
    if j.Num? {
      Decimal.NumeralOf(if j.n < 0 then -j.n else j.n);
    }
  }

  lemma {:induction false} ItemsParse(items: seq<Json>, rest: string)
    requires items != []
    ensures var text := StringifyItems(items) + "]" + rest;
      && text[0] != ']' && !IsJsonSpace(text[0])
      && ParseItems(text) == Some((items, rest))
    decreases items, 0
  {
    hide ParseValue, ParseItems, Stringify, IsJsonSpace;
    var text := StringifyItems(items) + "]" + rest;
    StringifyStarts(items[0]);
    if |items| == 1 {
      assert text == Stringify(items[0]) + ("]" + rest);
      ValueParses(items[0], "]" + rest);
      LastItemParses(text, items[0], rest);
      assert items == [items[0]];
    } else {
      var tail := StringifyItems(items[1..]) + "]" + rest;
      assert text == Stringify(items[0]) + ("," + tail);
      ValueParses(items[0], "," + tail);
      ItemsParse(items[1..], rest);
      OneItemParses(text, items[0], tail);
      assert items == [items[0]] + items[1..];
    }
  }

  lemma KeyThenValueParses(text: string, key: string, after: string)
    requires StartsWith(text, "\"") && ParseString(text[1..]) == Some((key, ":" + after)) && ParseValue(after).Some?
    ensures ParseMember(text) == Some((Member(key, ParseValue(after).value.0), ParseValue(after).value.1))
  {
    hide ParseValue, ParseString;
    assert (":" + after)[1..] == after;
    assert SkipSpace(text) == text && SkipSpace(":" + after) == ":" + after;
  }

  lemma {:induction false} MemberParses(m: Member, rest: string)
    requires Delimited(rest)
    ensures StartsWith(StringifyMember(m), "\"")
    ensures ParseMember(StringifyMember(m) + rest) == Some((m, rest))
    decreases m, 2
  {
    var text := StringifyMember(m) + rest;
    hide ParseValue, ParseString, ParseMember, Stringify, EscapeAll;
    var after := ":" + (Stringify(m.value) + rest);
    assert text[0] == '\"' && text[1..] == EscapeAll(m.key) + "\"" + after;
    StringParses(m.key, after);
    ValueParses(m.value, rest);
    KeyThenValueParses(text, m.key, Stringify(m.value) + rest);
  }

  lemma LastMemberParses(text: string, member: Member, rest: string)
    requires ParseMember(text) == Some((member, "}" + rest))
    ensures ParseMembers(text) == Some(([member], rest))
  {
    hide ParseMember;
    assert ("}" + rest)[1..] == rest;
  }

  lemma OneMemberParses(text: string, member: Member, tail: string)
    requires ParseMember(text) == Some((member, "," + tail)) && ParseMembers(tail).Some?
    ensures ParseMembers(text) == Some(([member] + ParseMembers(tail).value.0, ParseMembers(tail).value.1))
  {
    hide ParseMember;
    assert ("," + tail)[1..] == tail;
  }

  lemma {:induction false} MembersParse(members: seq<Member>, rest: string)
    requires members != []
    ensures var text := StringifyMembers(members) + "}" + rest;
      && text[0] == '\"'
      && ParseMembers(text) == Some((members, rest))
    decreases members, 0
  {
    hide ParseMember, ParseMembers, ParseValue, StringifyMember;
    var text := StringifyMembers(members) + "}" + rest;
    if |members| == 1 {
      assert text == StringifyMember(members[0]) + ("}" + rest);
      MemberParses(members[0], "}" + rest);
      LastMemberParses(text, members[0], rest);
      assert members == [members[0]];
    } else {
      var tail := StringifyMembers(members[1..]) + "}" + rest;
      assert text == StringifyMember(members[0]) + ("," + tail);
      MemberParses(members[0], "," + tail);
      MembersParse(members[1..], rest);
      OneMemberParses(text, members[0], tail);
      assert members == [members[0]] + members[1..];
    }
  }

  /** `JSON.parse` inverts `JSON.stringify` on every value of the model. */
  lemma RoundTrip(j: Json)
    ensures Parse(Stringify(j)) == Some(j)
  {
    ValueParses(j, "");
    assert Stringify(j) + "" == Stringify(j);
  }
}
