/** UTF-8 (section 3 of RFC 3629) as TextEncoder writes it and a fatal TextDecoder reads it. */
module Utf8 {
  import opened JsString

  type byte = b: int | 0 <= b < 256

  function EncodeChar(c: char): seq<byte> {
    var x := c as int;
    if x < 0x80 then [x]
    else if x < 0x800 then [0xC0 + x / 64, 0x80 + x % 64]
    else if x < 0x1_0000 then [0xE0 + x / 4096, 0x80 + x / 64 % 64, 0x80 + x % 64]
    else [0xF0 + x / 262144, 0x80 + x / 4096 % 64, 0x80 + x / 64 % 64, 0x80 + x % 64]
  }

  function Encode(s: string): seq<byte> {
    if s == [] then [] else EncodeChar(s[0]) + Encode(s[1..])
  }

  predicate IsContinuation(b: byte) {
    0x80 <= b < 0xC0
  }

  predicate IsScalar(x: int) {
    0 <= x < 0xD800 || 0xE000 <= x < 0x11_0000
  }

  /** The scalar value at the front and its length, unless it is truncated, overlong, a surrogate or out of range. */
  function DecodeFirst(b: seq<byte>): (r: Option<(char, nat)>)
    requires b != []
    ensures r.Some? ==> 1 <= r.value.1 <= |b|
  {
    if b[0] < 0x80 then Some((b[0] as char, 1))
    else if 0xC2 <= b[0] < 0xE0 && |b| >= 2 && IsContinuation(b[1]) then
      Some((((b[0] as int - 0xC0) * 64 + (b[1] as int - 0x80)) as char, 2))
    else if 0xE0 <= b[0] < 0xF0 && |b| >= 3 && IsContinuation(b[1]) && IsContinuation(b[2]) then
      var x := (b[0] as int - 0xE0) * 4096 + (b[1] as int - 0x80) * 64 + (b[2] as int - 0x80);
      if x >= 0x800 && IsScalar(x) then Some((x as char, 3)) else None
    else if 0xF0 <= b[0] < 0xF5 && |b| >= 4 && IsContinuation(b[1]) && IsContinuation(b[2]) && IsContinuation(b[3]) then
      var x := (b[0] as int - 0xF0) * 262144 + (b[1] as int - 0x80) * 4096
               + (b[2] as int - 0x80) * 64 + (b[3] as int - 0x80);
      if x >= 0x1_0000 && IsScalar(x) then Some((x as char, 4)) else None
    else None
  }

  function DecodeStrict(b: seq<byte>): Option<string> {
    if b == [] then Some([])
    else
      match DecodeFirst(b)
      case None => None
      case Some((c, n)) =>
        match DecodeStrict(b[n..])
        case None => None
        case Some(rest) => Some([c] + rest)
  }

  const BYTE_ORDER_MARK := '\U{FEFF}'

  /** `new TextDecoder('utf-8', { fatal: true }).decode`: without `ignoreBOM`, a leading mark is dropped. */
  function Decode(b: seq<byte>): Option<string> {
    match DecodeStrict(b)
    case None => None
    case Some(s) => Some(if s != [] && s[0] == BYTE_ORDER_MARK then s[1..] else s)
  }

  /** The six-bit digits of a number are determined by it. */
  lemma SixBitDigits(x: int, a: int, b: int, c: int, d: int)
    requires 0 <= a && 0 <= b < 64 && 0 <= c < 64 && 0 <= d < 64
    requires x == a * 262144 + b * 4096 + c * 64 + d
    ensures x / 262144 == a && x / 4096 == a * 64 + b && x / 4096 % 64 == b && x / 64 % 64 == c && x % 64 == d
  {
    assert x / 64 == a * 4096 + b * 64 + c;
  }

  lemma ThreeBytes(x: int)
    requires 0 <= x < 0x1_0000
    ensures 0 <= x / 4096 < 16 && x / 4096 * 4096 + x / 64 % 64 * 64 + x % 64 == x
  {
    var y := x / 64;
    var z := y / 64;
    SixBitDigits(x, 0, z, y % 64, x % 64);
  }

  lemma FourBytes(x: int)
    requires 0 <= x < 0x11_0000
    ensures 0 <= x / 262144 < 5 && x / 262144 * 262144 + x / 4096 % 64 * 4096 + x / 64 % 64 * 64 + x % 64 == x
  {
    var y := x / 64;
    var z := y / 64;
    var w := z / 64;
    SixBitDigits(x, w, z % 64, y % 64, x % 64);
  }

  /** The payload bits of an encoding whose first byte has the marker `lead`, six more from each byte that follows. */
  function Payload(e: seq<byte>, lead: int): int
    requires e != []
  {
    if |e| == 1 then e[0] as int - lead
    else Payload(e[..|e| - 1], lead) * 64 + (e[|e| - 1] as int - 0x80)
  }

  lemma PayloadMore(e: seq<byte>, b: byte, lead: int)
    requires e != []
    ensures Payload(e + [b], lead) == Payload(e, lead) * 64 + (b as int - 0x80)
  {
    assert (e + [b])[..|e|] == e;
  }

  lemma PayloadOf(w: byte, x: byte, y: byte, z: byte, lead: int)
    ensures var p := w as int - lead;
      && Payload([w], lead) == p
      && Payload([w, x], lead) == p * 64 + (x as int - 0x80)
      && Payload([w, x, y], lead) == p * 4096 + (x as int - 0x80) * 64 + (y as int - 0x80)
      && Payload([w, x, y, z], lead) ==
         p * 262144 + (x as int - 0x80) * 4096 + (y as int - 0x80) * 64 + (z as int - 0x80)
  {
    PayloadMore([w], x, lead);
    PayloadMore([w, x], y, lead);
    PayloadMore([w, x, y], z, lead);
    assert [w] + [x] == [w, x] && [w, x] + [y] == [w, x, y] && [w, x, y] + [z] == [w, x, y, z];
  }

  /** The table of RFC 3629 section 3: how many bytes a character takes, which bytes may lead and follow, and
      that their payload bits are the number of the character. */
  lemma EncodedForm(c: char)
    ensures var x := c as int;
      var e := EncodeChar(c);
      && |e| == (if x <= 0x7F then 1 else if x <= 0x7FF then 2 else if x <= 0xFFFF then 3 else 4)
      && (forall i :: 1 <= i < |e| ==> 0x80 <= e[i] <= 0xBF)
      && (|e| == 1 ==> 0 <= e[0] <= 0x7F && Payload(e, 0) == x)
      && (|e| == 2 ==> 0xC2 <= e[0] <= 0xDF && Payload(e, 0xC0) == x)
      && (|e| == 3 ==> 0xE0 <= e[0] <= 0xEF && Payload(e, 0xE0) == x)
      && (|e| == 4 ==> 0xF0 <= e[0] <= 0xF4 && Payload(e, 0xF0) == x)
  {
    hide Payload;
    var x, e := c as int, EncodeChar(c);
    if |e| == 1 {
      PayloadOf(e[0], 0, 0, 0, 0);
    } else if |e| == 2 {
      PayloadOf(e[0], e[1], 0, 0, 0xC0);
    } else if |e| == 3 {
      ThreeBytes(x);
      PayloadOf(e[0], e[1], e[2], 0, 0xE0);
    } else {
      FourBytes(x);
      PayloadOf(e[0], e[1], e[2], e[3], 0xF0);
    }
  }

  lemma FirstOfEncoded(c: char, tail: seq<byte>)
    ensures EncodeChar(c) != []
    ensures DecodeFirst(EncodeChar(c) + tail) == Some((c, |EncodeChar(c)|))
  {
    var x := c as int;
    var e := EncodeChar(c);
    if |e| == 1 {
      assert (e + tail)[0] == e[0];
    } else if |e| == 2 {
      assert (e + tail)[0] == e[0] && (e + tail)[1] == e[1];
    } else if |e| == 3 {
      ThreeBytes(x);
      assert (e + tail)[0] == e[0] && (e + tail)[1] == e[1] && (e + tail)[2] == e[2];
    } else {
      FourBytes(x);
      assert (e + tail)[0] == e[0] && (e + tail)[1] == e[1] && (e + tail)[2] == e[2] && (e + tail)[3] == e[3];
    }
  }

  lemma EncodedFirst(b: seq<byte>)
    requires b != [] && DecodeFirst(b).Some?
    ensures EncodeChar(DecodeFirst(b).value.0) == b[..DecodeFirst(b).value.1]
  {
    var (c, n) := DecodeFirst(b).value;
    if n == 2 {
      SixBitDigits(c as int, 0, 0, b[0] - 0xC0, b[1] - 0x80);
    } else if n == 3 {
      SixBitDigits(c as int, 0, b[0] - 0xE0, b[1] - 0x80, b[2] - 0x80);
    } else if n == 4 {
      SixBitDigits(c as int, b[0] - 0xF0, b[1] - 0x80, b[2] - 0x80, b[3] - 0x80);
    }
  }

  /** The decoder accepts exactly the encodings: it inverts the encoder, and accepts nothing else. */
  lemma {:induction false} StrictRoundTrip(s: string)
    ensures DecodeStrict(Encode(s)) == Some(s)
  {
    hide EncodeChar, DecodeFirst;
    if s != [] {
      var b := Encode(s);
      FirstOfEncoded(s[0], Encode(s[1..]));
      assert b[|EncodeChar(s[0])|..] == Encode(s[1..]);
      StrictRoundTrip(s[1..]);
      assert s == [s[0]] + s[1..];
    }
  }

  lemma {:induction false} OnlyEncodingsAccepted(b: seq<byte>)
    requires DecodeStrict(b).Some?
    ensures Encode(DecodeStrict(b).value) == b
  {
    hide EncodeChar, DecodeFirst;
    if b != [] {
      var n := DecodeFirst(b).value.1;
      EncodedFirst(b);
      OnlyEncodingsAccepted(b[n..]);
      assert b == b[..n] + b[n..];
    }
  }

  /** What TextDecoder makes of what TextEncoder wrote: the same text, except that it drops one leading mark. */
  lemma RoundTrip(s: string)
    ensures Decode(Encode(s)) == Some(if StartsWith(s, [BYTE_ORDER_MARK]) then s[1..] else s)
  {
    StrictRoundTrip(s);
  }
}
