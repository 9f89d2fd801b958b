/**
 * Unpadded base64url (section 5 of RFC 4648) on top of `btoa` and `atob`
 * (src/lib/mobileSyncConnectUri.ts:392-431).
 */
module Base64Url {
  import opened JsString
  import opened Utf8

  // ---------- btoa and atob ----------

  type sextet = x: int | 0 <= x < 64

  function Symbol(x: sextet): char {
    if x < 26 then (x + 65) as char
    else if x < 52 then (x + 71) as char
    else if x < 62 then (x - 4) as char
    else if x == 62 then '+'
    else '/'
  }

  function SymbolValue(c: char): (r: Option<sextet>) {
    if 'A' <= c <= 'Z' then Some(c as int - 65)
    else if 'a' <= c <= 'z' then Some(c as int - 71)
    else if '0' <= c <= '9' then Some(c as int + 4)
    else if c == '+' then Some(62)
    else if c == '/' then Some(63)
    else None
  }

  /** A "binary string": one character per byte. */
  function Latin1(b: seq<byte>): (s: string)
    ensures |s| == |b|
  {
    seq(|b|, i requires 0 <= i < |b| => b[i] as int as char)
  }

  predicate IsLatin1(s: string) {
    forall i :: 0 <= i < |s| ==> s[i] as int < 256
  }

  function CharCodes(s: string): (b: seq<byte>)
    requires IsLatin1(s)
    ensures |b| == |s|
  {
    seq(|s|, i requires 0 <= i < |s| => s[i] as int)
  }

  /** The bits of the bytes in groups of six, the last group filled up with zeros. */
  function Unpack(b: seq<byte>): seq<sextet> {
    if |b| == 0 then []
    else if |b| == 1 then [b[0] / 4, b[0] % 4 * 16]
    else if |b| == 2 then [b[0] / 4, b[0] % 4 * 16 + b[1] / 16, b[1] % 16 * 4]
    else [b[0] / 4, b[0] % 4 * 16 + b[1] / 16, b[1] % 16 * 4 + b[2] / 64, b[2] % 64] + Unpack(b[3..])
  }

  function Symbols(x: seq<sextet>): (s: string)
    ensures |s| == |x|
  {
    seq(|x|, i requires 0 <= i < |x| => Symbol(x[i]))
  }

  function Equals(n: nat): string {
    seq(n, i requires 0 <= i < n => '=')
  }

  /** Padded base64 of a binary string. */
  function Btoa(binary: string): string
    requires IsLatin1(binary)
  {
    Symbols(Unpack(CharCodes(binary))) + Equals((3 - |binary| % 3) % 3)
  }

  predicate IsAsciiSpace(c: char) {
    c in {'\t', '\n', '\U{C}', '\r', ' '}
  }

  function DropSpaces(s: string): string {
    if s == [] then []
    else if IsAsciiSpace(s[0]) then DropSpaces(s[1..])
    else [s[0]] + DropSpaces(s[1..])
  }

  /** One or two trailing padding characters are dropped, if they complete a group of four. */
  function DropPadding(s: string): string {
    if |s| % 4 != 0 || |s| == 0 || s[|s| - 1] != '=' then s
    else if s[|s| - 2] != '=' then s[..|s| - 1]
    else s[..|s| - 2]
  }

  function Sextets(s: string): Option<seq<sextet>> {
    if s == [] then Some([])
    else
      match (SymbolValue(s[0]), Sextets(s[1..]))
      case (Some(x), Some(rest)) => Some([x] + rest)
      case _ => None
  }

  function Pack1(x: int, y: int): byte
    requires 0 <= x < 64 && 0 <= y < 64
  {
    x * 4 + y / 16
  }

  function Pack2(x: int, y: int): byte
    requires 0 <= x < 64 && 0 <= y < 64
  {
    x % 16 * 16 + y / 4
  }

  function Pack3(x: int, y: int): byte
    requires 0 <= x < 64 && 0 <= y < 64
  {
    x % 4 * 64 + y
  }

  /** Whole bytes only: the bits left over at the end are discarded. */
  function Pack(x: seq<sextet>): seq<byte> {
    if |x| < 2 then []
    else if |x| == 2 then [Pack1(x[0], x[1])]
    else if |x| == 3 then [Pack1(x[0], x[1]), Pack2(x[1], x[2])]
    else [Pack1(x[0], x[1]), Pack2(x[1], x[2]), Pack3(x[2], x[3])] + Pack(x[4..])
  }

  /** Forgiving base64 decoding, into a binary string; `None` is InvalidCharacterError. */
  function Atob(data: string): (r: Option<string>)
    ensures r.Some? ==> IsLatin1(r.value)
  {
    var s := DropPadding(DropSpaces(data));
    if |s| % 4 == 1 then None
    else
      match Sextets(s)
      case None => None
      case Some(x) => Some(Latin1(Pack(x)))
  }

  // ---------- the source's two functions ----------

  function DropTrailingEquals(s: string): string {
    if s != [] && s[|s| - 1] == '=' then DropTrailingEquals(s[..|s| - 1]) else s
  }

  /** The whole array in one piece. */
  function Encode(b: seq<byte>): string {
    DropTrailingEquals(ReplaceChar(ReplaceChar(Btoa(Latin1(b)), '+', '-'), '/', '_'))
  }

  const CHUNK: nat := 0x8000

  /** The source's encoder, which turns the bytes into a binary string chunk by chunk. */
  method BytesToBase64Url(bytes: seq<byte>) returns (s: string)
    ensures s == Encode(bytes)
  {
    var binary := "";
    var i := 0;
    while i < |bytes|
      invariant 0 <= i && binary == Latin1(bytes[..if i < |bytes| then i else |bytes|])
    {
      var end := if i + CHUNK < |bytes| then i + CHUNK else |bytes|;
      binary := binary + Latin1(bytes[i..end]);
      assert bytes[..end] == bytes[..i] + bytes[i..end];
      i := i + CHUNK;
    }
    assert bytes[..|bytes|] == bytes;
    s := DropTrailingEquals(ReplaceChar(ReplaceChar(Btoa(binary), '+', '-'), '/', '_'));
  }

  function Pad(s: string): string {
    s + Equals((4 - |s| % 4) % 4)
  }

  function Decode(text: string): Option<seq<byte>> {
    match Atob(Pad(ReplaceChar(ReplaceChar(text, '-', '+'), '_', '/')))
    case None => None
    case Some(binary) => Some(CharCodes(binary))
  }

  method AddPadding(text: string) returns (b64: string)
    ensures b64 == Pad(text)
  {
    b64 := text;
    while |b64| % 4 != 0
      invariant |text| <= |b64| <= |text| + (4 - |text| % 4) % 4
      invariant b64 == text + Equals(|b64| - |text|)
      decreases |text| + 4 - |b64|
    {
      b64 := b64 + "=";
    }
  }

  method BytesOfCodes(binary: string) returns (bytes: seq<byte>)
    requires IsLatin1(binary)
    ensures bytes == CharCodes(binary)
  {
    var out := new byte[|binary|];
    var i := 0;
    while i < |binary|
      invariant 0 <= i <= out.Length
      invariant out[..i] == CharCodes(binary)[..i]
    {
      out[i] := binary[i] as int;
      i := i + 1;
    }
    assert out[..] == CharCodes(binary);
    bytes := out[..];
  }

  /** The source's decoder; `None` stands for the exception `atob` throws. */
  method Base64UrlToBytes(text: string) returns (r: Option<seq<byte>>)
    ensures r == Decode(text)
  {
    hide Atob, Pad, CharCodes, ReplaceChar;
    var b64 := AddPadding(ReplaceChar(ReplaceChar(text, '-', '+'), '_', '/'));
    var binary := Atob(b64);
    if binary == None {
      return None;
    }
    var out := BytesOfCodes(binary.value);
    r := Some(out);
  }

  // ---------- round trip ----------

  predicate IsUrlSymbol(c: char) {
    'A' <= c <= 'Z' || 'a' <= c <= 'z' || '0' <= c <= '9' || c == '-' || c == '_'
  }

  lemma SymbolRoundTrip(x: sextet)
    ensures SymbolValue(Symbol(x)) == Some(x)
  {
  }

  lemma {:induction false} SextetsOfSymbols(x: seq<sextet>)
    ensures Sextets(Symbols(x)) == Some(x)
  {
    if x != [] {
      SymbolRoundTrip(x[0]);
      assert Symbols(x)[1..] == Symbols(x[1..]);
      SextetsOfSymbols(x[1..]);
      assert x == [x[0]] + x[1..];
    }
  }

  lemma PackGroup(x: byte, y: byte, z: byte)
    ensures Pack1(x / 4, x % 4 * 16 + y / 16) == x
    ensures Pack2(x % 4 * 16 + y / 16, y % 16 * 4 + z / 64) == y
    ensures Pack3(y % 16 * 4 + z / 64, z % 64) == z
  {
  }

  lemma {:induction false} PackOfUnpack(b: seq<byte>)
    ensures Pack(Unpack(b)) == b && |Unpack(b)| == (4 * |b| + 2) / 3
  {
    hide Pack1, Pack2, Pack3;
    if |b| > 2 {
      PackOfUnpack(b[3..]);
      PackGroup(b[0], b[1], b[2]);
      assert Unpack(b)[4..] == Unpack(b[3..]);
      assert b == [b[0], b[1], b[2]] + b[3..];
    } else if |b| == 2 {
      PackGroup(b[0], b[1], 0);
    } else if |b| == 1 {
      PackGroup(b[0], 0, 0);
    }
  }

  lemma SymbolsAreClean(x: seq<sextet>, c: char)
    requires c in Symbols(x)
    ensures SymbolValue(c).Some? && c != '=' && c != '-' && c != '_' && !IsAsciiSpace(c)
  {
    var i :| 0 <= i < |x| && Symbols(x)[i] == c;
    SymbolRoundTrip(x[i]);
  }

  lemma {:induction false} DropTrailing(s: string, n: nat)
    requires '=' !in s
    ensures DropTrailingEquals(s + Equals(n)) == s
  {
    if n > 0 {
      assert (s + Equals(n))[..|s| + n - 1] == s + Equals(n - 1);
      DropTrailing(s, n - 1);
    } else {
      assert s + Equals(0) == s;
    }
  }

  lemma {:induction false} NoSpaces(s: string)
    requires forall c :: c in s ==> !IsAsciiSpace(c)
    ensures DropSpaces(s) == s
  {
    if s != [] {
      NoSpaces(s[1..]);
    }
  }

  lemma ReplaceConcat(a: string, b: string, from: char, to: char)
    ensures ReplaceChar(a + b, from, to) == ReplaceChar(a, from, to) + ReplaceChar(b, from, to)
  {
  }

  lemma NotReplaced(s: string, from: char, to: char)
    requires from !in s
    ensures ReplaceChar(s, from, to) == s
  {
    forall i | 0 <= i < |s|
      ensures ReplaceChar(s, from, to)[i] == s[i]
    {
      assert s[i] in s;
    }
  }

  /** The two replacements and their inverses, on the symbols of the standard alphabet. */
  lemma Renamed(s: string)
    requires '=' !in s && '-' !in s && '_' !in s
    ensures var t := ReplaceChar(ReplaceChar(s, '+', '-'), '/', '_');
      '=' !in t && ReplaceChar(ReplaceChar(t, '-', '+'), '_', '/') == s
  {
    var t := ReplaceChar(ReplaceChar(s, '+', '-'), '/', '_');
    forall i | 0 <= i < |s|
      ensures ReplaceChar(ReplaceChar(t, '-', '+'), '_', '/')[i] == s[i]
    {
      assert s[i] in s;
    }
  }

  lemma PaddingNotReplaced(n: nat)
    ensures ReplaceChar(ReplaceChar(Equals(n), '+', '-'), '/', '_') == Equals(n)
  {
    NotReplaced(Equals(n), '+', '-');
    NotReplaced(Equals(n), '/', '_');
  }

  lemma CodesOfLatin1(b: seq<byte>)
    ensures IsLatin1(Latin1(b)) && CharCodes(Latin1(b)) == b
  {
  }

  /** The encoder's output: the symbols of the standard alphabet, with two of them renamed and no padding. */
  lemma EncodeIsSymbols(b: seq<byte>)
    ensures Encode(b) == ReplaceChar(ReplaceChar(Symbols(Unpack(b)), '+', '-'), '/', '_')
    ensures ReplaceChar(ReplaceChar(Encode(b), '-', '+'), '_', '/') == Symbols(Unpack(b))
  {
    hide Unpack, Symbols, ReplaceChar, Equals, DropTrailingEquals, Latin1, CharCodes;
    var s := Symbols(Unpack(b));
    var n := (3 - |b| % 3) % 3;
    CodesOfLatin1(b);
    forall c | c in s
      ensures c != '=' && c != '-' && c != '_'
    {
      SymbolsAreClean(Unpack(b), c);
    }
    ReplaceConcat(s, Equals(n), '+', '-');
    ReplaceConcat(ReplaceChar(s, '+', '-'), ReplaceChar(Equals(n), '+', '-'), '/', '_');
    PaddingNotReplaced(n);
    Renamed(s);
    DropTrailing(ReplaceChar(ReplaceChar(s, '+', '-'), '/', '_'), n);
  }

  /** Length ceil(4n/3), and only URL-safe characters. */
  lemma EncodedShape(b: seq<byte>)
    ensures |Encode(b)| == (4 * |b| + 2) / 3
    ensures forall c :: c in Encode(b) ==> IsUrlSymbol(c)
  {
    EncodeIsSymbols(b);
    PackOfUnpack(b);
    forall c | c in Encode(b)
      ensures IsUrlSymbol(c)
    {
      var i :| 0 <= i < |Encode(b)| && Encode(b)[i] == c;
      var d := Symbols(Unpack(b))[i];
      SymbolsAreClean(Unpack(b), d);
    }
  }

  // ---------- the alphabet ----------

  /** The symbols of base64url, in the order of their values (section 5 of RFC 4648). */
  const URL_ALPHABET: string :=
    "ABCDEFGHIJKLMNOPQRSTUVWXYZ" + "abcdefghijklmnopqrstuvwxyz" + "0123456789" + "-_"

  function UrlSymbol(x: sextet): char {
    if Symbol(x) == '+' then '-' else if Symbol(x) == '/' then '_' else Symbol(x)
  }

  lemma {:induction false} Consecutive(s: string, i: nat)
    requires i < |s| && forall j :: 0 < j < |s| ==> s[j] as int == s[j - 1] as int + 1
    ensures s[i] as int == s[0] as int + i
  {
    if i > 0 {
      Consecutive(s, i - 1);
    }
  }

  lemma Capitals(i: nat)
    requires i < 26
    ensures "ABCDEFGHIJKLMNOPQRSTUVWXYZ"[i] as int == 65 + i
  {
    Consecutive("ABCDEFGHIJKLMNOPQRSTUVWXYZ", i);
  }

  lemma SmallLetters(i: nat)
    requires i < 26
    ensures "abcdefghijklmnopqrstuvwxyz"[i] as int == 97 + i
  {
    Consecutive("abcdefghijklmnopqrstuvwxyz", i);
  }

  lemma Digits(i: nat)
    requires i < 10
    ensures "0123456789"[i] as int == 48 + i
  {
    Consecutive("0123456789", i);
  }

  lemma FourParts(a: string, b: string, c: string, d: string, i: nat)
    requires i < |a| + |b| + |c| + |d|
    ensures (a + b + c + d)[i] ==
            if i < |a| then a[i]
            else if i < |a| + |b| then b[i - |a|]
            else if i < |a| + |b| + |c| then c[i - |a| - |b|]
            else d[i - |a| - |b| - |c|]
  {
  }

  lemma SymbolAt(x: sextet, capitals: string, smalls: string, digits: string)
    requires |capitals| == |smalls| == 26 && |digits| == 10
    requires x < 26 ==> capitals[x] as int == 65 + x
    requires 26 <= x < 52 ==> smalls[x - 26] as int == 71 + x
    requires 52 <= x < 62 ==> digits[x - 52] as int == x - 4
    ensures UrlSymbol(x) == (capitals + smalls + digits + "-_")[x]
  {
    FourParts(capitals, smalls, digits, "-_", x);
  }

  lemma AlphabetIs(x: sextet)
    ensures |URL_ALPHABET| == 64 && UrlSymbol(x) == URL_ALPHABET[x]
  {
    hide UrlSymbol;
    if x < 26 {
      Capitals(x);
    } else if x < 52 {
      SmallLetters(x - 26);
    } else if x < 62 {
      Digits(x - 52);
    }
    SymbolAt(x, "ABCDEFGHIJKLMNOPQRSTUVWXYZ", "abcdefghijklmnopqrstuvwxyz", "0123456789");
  }

  lemma UnpackTail(b: seq<byte>)
    requires |b| >= 3
    ensures |Unpack(b)| == 4 + |Unpack(b[3..])| && Unpack(b)[4..] == Unpack(b[3..])
  {
  }

  /** Three bytes, as one number of 24 bits; what is missing at the end counts as zero. */
  function Bits24(b: seq<byte>, k: nat): nat
    requires 3 * k < |b|
  {
    var y := if 3 * k + 1 < |b| then b[3 * k + 1] as int else 0;
    var z := if 3 * k + 2 < |b| then b[3 * k + 2] as int else 0;
    b[3 * k] as int * 65536 + y * 256 + z
  }

  lemma SplitBits(x: int, y: int, z: int)
    requires 0 <= x < 256 && 0 <= y < 256 && 0 <= z < 256
    ensures var n := x * 65536 + y * 256 + z;
      && n / 262144 == x / 4 && n / 4096 % 64 == x % 4 * 16 + y / 16 && n / 64 % 64 == y % 16 * 4 + z / 64
      && n % 64 == z % 64
  {
    var (a, b) := (x / 4, x % 4);
    var (c, d) := (y / 16, y % 16);
    var (e, f) := (z / 64, z % 64);
    assert x == 4 * a + b && y == 16 * c + d && z == 64 * e + f;
    SixBitDigits(x * 65536 + y * 256 + z, a, b * 16 + c, d * 4 + e, f);
  }

  /** The sextets `u` have the digits of the group of three bytes at `k`. */
  ghost predicate HasDigits(b: seq<byte>, k: nat, u: seq<sextet>, at: nat)
    requires 3 * k < |b|
  {
    var n := Bits24(b, k);
    && at + 1 < |u| && u[at] == n / 262144 && u[at + 1] == n / 4096 % 64
    && (3 * k + 1 < |b| <==> at + 2 < |u|) && (at + 2 < |u| ==> u[at + 2] == n / 64 % 64)
    && (3 * k + 2 < |b| <==> at + 3 < |u|) && (at + 3 < |u| ==> u[at + 3] == n % 64)
  }

  lemma FirstDigits(b: seq<byte>)
    requires b != []
    ensures HasDigits(b, 0, Unpack(b), 0)
  {
    SplitBits(b[0], if |b| > 1 then b[1] else 0, if |b| > 2 then b[2] else 0);
  }

  lemma SameBits(b: seq<byte>, k: nat)
    requires 0 < k && 3 * k < |b|
    ensures Bits24(b[3..], k - 1) == Bits24(b, k)
  {
  }

  lemma {:induction false} UnpackAt(b: seq<byte>, k: nat)
    requires 3 * k < |b|
    ensures HasDigits(b, k, Unpack(b), 4 * k)
  {
    if k > 0 {
      UnpackAt(b[3..], k - 1);
      UnpackTail(b);
      SameBits(b, k);
      hide Unpack, Bits24;
      var u := Unpack(b);
      assert forall i :: 4 <= i < |u| ==> u[i] == u[4..][i - 4];
    } else {
      FirstDigits(b);
    }
  }

  /** Every three bytes, read as a number of 24 bits, are written as its four digits to the base 64; of an
      incomplete group only the digits that carry bits are written. */
  lemma EncodedDigits(b: seq<byte>, k: nat)
    requires 3 * k < |b|
    ensures |URL_ALPHABET| == 64
    ensures var n := Bits24(b, k);
      var e := Encode(b);
      && 4 * k + 1 < |e| && 0 <= n / 262144 < 64
      && e[4 * k] == URL_ALPHABET[n / 262144] && e[4 * k + 1] == URL_ALPHABET[n / 4096 % 64]
      && (3 * k + 1 < |b| <==> 4 * k + 2 < |e|) && (4 * k + 2 < |e| ==> e[4 * k + 2] == URL_ALPHABET[n / 64 % 64])
      && (3 * k + 2 < |b| <==> 4 * k + 3 < |e|) && (4 * k + 3 < |e| ==> e[4 * k + 3] == URL_ALPHABET[n % 64])
  {
    EncodeIsSymbols(b);
    UnpackAt(b, k);
    hide Encode, Unpack, Bits24, Symbol;
    var u := Unpack(b);
    forall i | 0 <= i < |u|
      ensures Encode(b)[i] == URL_ALPHABET[u[i]] && |URL_ALPHABET| == 64
    {
      AlphabetIs(u[i]);
    }
    AlphabetIs(0);
  }

  // ---------- what is decoded ----------

  lemma {:induction false} SextetsExactly(s: string)
    ensures Sextets(s).Some? <==> forall c :: c in s ==> SymbolValue(c).Some?
  {
    hide SymbolValue;
    if s != [] {
      SextetsExactly(s[1..]);
      assert forall c :: c in s <==> c == s[0] || c in s[1..];
    }
  }

  lemma SymbolsExactly(c: char)
    ensures SymbolValue(c).Some? <==> (IsUrlSymbol(c) && c != '-' && c != '_') || c == '+' || c == '/'
  {
  }

  lemma UrlSymbolsAre(c: char)
    ensures c == '-' || c == '_' ==> IsUrlSymbol(c)
    ensures IsUrlSymbol(c) && c != '-' && c != '_' ==> SymbolValue(c).Some?
    ensures IsUrlSymbol(c) ==> c != '+' && c != '/'
  {
  }

  lemma RenamedBack(text: string)
    ensures var s := ReplaceChar(ReplaceChar(text, '-', '+'), '_', '/');
      (forall c :: c in s ==> SymbolValue(c).Some?) <==>
          forall c :: c in text ==> IsUrlSymbol(c) || c == '+' || c == '/'
  {
    hide SymbolValue, IsUrlSymbol;
    var s := ReplaceChar(ReplaceChar(text, '-', '+'), '_', '/');
    forall i | 0 <= i < |text|
      ensures SymbolValue(s[i]).Some? <==> IsUrlSymbol(text[i]) || text[i] == '+' || text[i] == '/'
    {
      SymbolsExactly(s[i]);
      SymbolsExactly(text[i]);
      UrlSymbolsAre(text[i]);
    }
    if forall c :: c in s ==> SymbolValue(c).Some? {
      forall c | c in text
        ensures IsUrlSymbol(c) || c == '+' || c == '/'
      {
        var i :| 0 <= i < |text| && text[i] == c;
        assert s[i] in s;
      }
    } else {
      var c :| c in s && !SymbolValue(c).Some?;
      var i :| 0 <= i < |s| && s[i] == c;
      assert text[i] in text;
    }
  }

  lemma PadIs(s: string, n: nat)
    requires n < 4 && (|s| + n) % 4 == 0
    ensures Pad(s) == s + Equals(n)
  {
    assert (4 - |s| % 4) % 4 == n;
  }

  lemma TwoDropped(s: string)
    requires |s| % 4 == 2
    ensures DropPadding(s + "==") == s
  {
    assert (s + "==")[..|s|] == s;
  }

  lemma ThreeEquals(s: string)
    ensures Equals(3) == "===" && s + Equals(3) == (s + "=") + "==" && '=' in s + "="
  {
    assert Equals(3) == "===";
    assert (s + "=")[|s|] == '=';
  }

  lemma Remainders(n: nat)
    requires n % 4 == 1
    ensures (n + 1) % 4 == 2 && (n + 3) % 4 == 0
  {
  }

  lemma TooShort(s: string)
    requires |s| % 4 == 1
    ensures DropPadding(Pad(s)) == s + "=" && Sextets(s + "=") == None
  {
    hide Sextets, SymbolValue, Pad, DropPadding, Equals;
    Remainders(|s|);
    PadIs(s, 3);
    ThreeEquals(s);
    TwoDropped(s + "=");
    SextetsExactly(s + "=");
    SymbolsExactly('=');
  }

  lemma {:induction false} SextetsLength(s: string)
    requires Sextets(s).Some?
    ensures |Sextets(s).value| == |s|
  {
    if s != [] {
      SextetsLength(s[1..]);
    }
  }

  lemma {:induction false} PackLength(x: seq<sextet>)
    requires |x| % 4 != 1
    ensures |Pack(x)| == 3 * |x| / 4
  {
    if |x| > 3 {
      PackLength(x[4..]);
    }
  }

  lemma PaddingDropped(s: string)
    requires '=' !in s && |s| % 4 != 1
    ensures DropPadding(Pad(s)) == s
  {
    var n := (4 - |s| % 4) % 4;
    assert n == 0 ==> Pad(s) == s;
    assert Pad(s)[..|s|] == s;
  }

  /** A text without white space and padding is refused exactly if its length cannot be that of an encoding, or
      if one of its characters belongs to neither of the two alphabets. */
  lemma DecodesExactly(text: string)
    requires forall c :: c in text ==> c != '=' && !IsAsciiSpace(c)
    ensures Decode(text).Some? <==>
            |text| % 4 != 1 && forall c :: c in text ==> IsUrlSymbol(c) || c == '+' || c == '/'
    ensures Decode(text).Some? ==> |Decode(text).value| == 3 * |text| / 4
  {
    hide SymbolValue, IsUrlSymbol;
    var s := ReplaceChar(ReplaceChar(text, '-', '+'), '_', '/');
    forall c | c in s
      ensures c != '=' && !IsAsciiSpace(c)
    {
      var i :| 0 <= i < |s| && s[i] == c;
      assert text[i] in text;
    }
    NoSpaces(Pad(s));
    SextetsExactly(s);
    RenamedBack(text);
    if |s| % 4 == 1 {
      TooShort(s);
    } else {
      PaddingDropped(s);
      if Sextets(s).Some? {
        SextetsLength(s);
        PackLength(Sextets(s).value);
      }
    }
  }

  lemma AtobOfSymbols(x: seq<sextet>)
    requires |x| % 4 != 1
    ensures Atob(Pad(Symbols(x))) == Some(Latin1(Pack(x)))
  {
    var s := Symbols(x);
    forall c | c in s
      ensures !IsAsciiSpace(c) && c != '='
    {
      SymbolsAreClean(x, c);
    }
    NoSpaces(Pad(s));
    PaddingDropped(s);
    SextetsOfSymbols(x);
  }

  /** Every byte sequence survives encoding and decoding. */
  lemma RoundTrip(b: seq<byte>)
    ensures Decode(Encode(b)) == Some(b)
  {
    hide Atob, Encode, Unpack, Pack;
    PackOfUnpack(b);
    var n := |b|;
    assert |Unpack(b)| == (4 * n + 2) / 3;
    assert n == 3 * (n / 3) + n % 3;
    EncodeIsSymbols(b);
    AtobOfSymbols(Unpack(b));
    assert CharCodes(Latin1(b)) == b;
  }
}
