/** UTF-8 (section 3 of RFC 3629), decoded as the runtime does: every maximal ill-formed
    stretch becomes one U+FFFD. A character is a Unicode scalar value. */
module Utf8 {
  import opened Bytes

  const REPLACEMENT := '\U{FFFD}'

  function EncodeChar(ch: char): (b: seq<byte>)
    ensures 1 <= |b| <= 4
  {
    var c := ch as int;
    if c < 0x80 then [c as byte]
    else if c < 0x800 then [(0xC0 + c / 64) as byte, (0x80 + c % 64) as byte]
    else if c < 0x1_0000 then [(0xE0 + c / 4096) as byte, (0x80 + c / 64 % 64) as byte, (0x80 + c % 64) as byte]
    else [(0xF0 + c / 262144) as byte, (0x80 + c / 4096 % 64) as byte, (0x80 + c / 64 % 64) as byte, (0x80 + c % 64) as byte]
  }

  function Encode(text: string): seq<byte> {
    if text == "" then [] else EncodeChar(text[0]) + Encode(text[1..])
  }

  /** How many bytes must follow a lead byte; none for a byte that leads nothing. */
  function Trailing(lead: byte): nat {
    if 0xC2 <= lead <= 0xDF then 1 else if 0xE0 <= lead <= 0xEF then 2 else if 0xF0 <= lead <= 0xF4 then 3 else 0
  }

  predicate Continues(b: byte) { 0x80 <= b <= 0xBF }

  /** The second byte is narrower after some leads: no overlong forms, no surrogates, nothing above U+10FFFF. */
  predicate SecondOk(lead: byte, b: byte) {
    Continues(b)
    && (lead == 0xE0 ==> b >= 0xA0) && (lead == 0xED ==> b <= 0x9F)
    && (lead == 0xF0 ==> b >= 0x90) && (lead == 0xF4 ==> b <= 0x8F)
  }

  /** The first character of the bytes, and how many bytes it takes up. */
  function DecodeFirst(b: seq<byte>): (r: (char, nat))
    requires b != []
    ensures 1 <= r.1 <= |b|
  {
    var lead := b[0] as int;
    var k := Trailing(b[0]);
    if lead < 0x80 then (lead as char, 1)
    else if k == 0 || |b| < 2 || !SecondOk(b[0], b[1]) then (REPLACEMENT, 1)
    else
      var b1 := b[1] as int - 0x80;
      if k == 1 then (((lead - 0xC0) * 64 + b1) as char, 2)
      else if |b| < 3 || !Continues(b[2]) then (REPLACEMENT, 2)
      else
        var b2 := b[2] as int - 0x80;
        if k == 2 then (((lead - 0xE0) * 4096 + b1 * 64 + b2) as char, 3)
        else if |b| < 4 || !Continues(b[3]) then (REPLACEMENT, 3)
        else (((lead - 0xF0) * 262144 + b1 * 4096 + b2 * 64 + (b[3] as int - 0x80)) as char, 4)
  }

  function Decode(b: seq<byte>): string
    decreases |b|
  {
    if b == [] then "" else [DecodeFirst(b).0] + Decode(b[DecodeFirst(b).1..])
  }

  /** Well-formed on its own: the encoding of some text. */
  predicate Valid(b: seq<byte>) {
    Encode(Decode(b)) == b
  }

  /** The length the runtime counts: characters beyond U+FFFF take two units. */
  function Utf16Length(text: string): nat {
    if text == "" then 0 else (if text[0] as int < 0x1_0000 then 1 else 2) + Utf16Length(text[1..])
  }

  // ---- the codec is sound ------------------------------------------------------

  lemma Sextets(c: nat)
    ensures c / 64 == 64 * (c / 4096) + c / 64 % 64
    ensures c == 4096 * (c / 4096) + 64 * (c / 64 % 64) + c % 64
  {
  }

  lemma TwoBytes(ch: char, more: seq<byte>)
    requires 0x80 <= ch as int < 0x800
    ensures DecodeFirst(EncodeChar(ch) + more) == (ch, 2)
  {
  }

  lemma ThreeBytes(ch: char, more: seq<byte>)
    requires 0x800 <= ch as int < 0x1_0000
    ensures DecodeFirst(EncodeChar(ch) + more) == (ch, 3)
  {
    var c := ch as int;
    Sextets(c);
    var hi, mid, lo := c / 4096, c / 64 % 64, c % 64;
    var b := EncodeChar(ch) + more;
    assert b[0] == (0xE0 + hi) as byte && b[1] == (0x80 + mid) as byte && b[2] == (0x80 + lo) as byte;
    assert Trailing(b[0]) == 2 && SecondOk(b[0], b[1]) && Continues(b[2]);
  }

  lemma FourBytes(ch: char, more: seq<byte>)
    requires 0x1_0000 <= ch as int
    ensures DecodeFirst(EncodeChar(ch) + more) == (ch, 4)
  {
    var c := ch as int;
    Sextets(c);
    Sextets(c / 64);
    assert c / 64 / 4096 == c / 262144 && c / 64 / 64 == c / 4096;
    var top, hi, mid, lo := c / 262144, c / 4096 % 64, c / 64 % 64, c % 64;
    assert c == 262144 * top + 4096 * hi + 64 * mid + lo;
    var b := EncodeChar(ch) + more;
    assert b[0] == (0xF0 + top) as byte && b[1] == (0x80 + hi) as byte && b[2] == (0x80 + mid) as byte && b[3] == (0x80 + lo) as byte;
    assert Trailing(b[0]) == 3 && SecondOk(b[0], b[1]) && Continues(b[2]) && Continues(b[3]);
  }

  lemma DecodeFirstOfEncoded(ch: char, more: seq<byte>)
    ensures DecodeFirst(EncodeChar(ch) + more) == (ch, |EncodeChar(ch)|)
  {
    var c := ch as int;
    if 0x80 <= c < 0x800 {
      TwoBytes(ch, more);
    } else if 0x800 <= c < 0x1_0000 {
      ThreeBytes(ch, more);
    } else if 0x1_0000 <= c {
      FourBytes(ch, more);
    }
  }

  lemma {:induction false} EncodeConcat(a: string, b: string)
    ensures Encode(a + b) == Encode(a) + Encode(b)
  {
    if a == "" {
      assert a + b == b;
    } else {
      assert (a + b)[1..] == a[1..] + b;
      EncodeConcat(a[1..], b);
    }
  }

  /** Text survives the round trip, whatever bytes follow it. */
  lemma {:induction false} DecodeEncoded(text: string, more: seq<byte>)
    ensures Decode(Encode(text) + more) == text + Decode(more)
  {
    if text == "" {
      assert Encode(text) + more == more;
    } else {
      var rest := Encode(text[1..]) + more;
      assert Encode(text) + more == EncodeChar(text[0]) + rest;
      DecodeFirstOfEncoded(text[0], rest);
      DecodeEncoded(text[1..], more);
    }
  }

  /** Bytes are valid exactly when they encode some text. */
  lemma {:induction false} ValidIsEncoded(text: string)
    ensures Valid(Encode(text)) && Decode(Encode(text)) == text
  {
    DecodeEncoded(text, []);
    assert Encode(text) + [] == Encode(text);
    assert text + "" == text;
  }

  lemma FirstNeverShrinks(b: seq<byte>)
    requires b != []
    ensures |EncodeChar(DecodeFirst(b).0)| >= DecodeFirst(b).1
  {
  }

  /** Replacement never makes bytes fewer. */
  lemma {:induction false} DecodingNeverShrinks(b: seq<byte>)
    ensures |Encode(Decode(b))| >= |b|
    decreases |b|
  {
    if b != [] {
      FirstNeverShrinks(b);
      DecodingNeverShrinks(b[DecodeFirst(b).1..]);
      assert ([DecodeFirst(b).0] + Decode(b[DecodeFirst(b).1..]))[1..] == Decode(b[DecodeFirst(b).1..]);
    }
  }

  lemma TwoBytesExact(b: seq<byte>)
    requires |b| >= 2 && 0xC2 <= b[0] <= 0xDF && Continues(b[1])
    ensures var c := (b[0] as int - 0xC0) * 64 + (b[1] as int - 0x80);
            0x80 <= c < 0x800 && c / 64 == b[0] as int - 0xC0 && c % 64 == b[1] as int - 0x80
  {
  }

  lemma ThreeBytesExact(b: seq<byte>)
    requires |b| >= 3 && 0xE0 <= b[0] <= 0xEF && SecondOk(b[0], b[1]) && Continues(b[2])
    ensures var c := (b[0] as int - 0xE0) * 4096 + (b[1] as int - 0x80) * 64 + (b[2] as int - 0x80);
            && 0x800 <= c < 0x1_0000 && !(0xD800 <= c <= 0xDFFF)
            && c / 4096 == b[0] as int - 0xE0 && c / 64 % 64 == b[1] as int - 0x80 && c % 64 == b[2] as int - 0x80
  {
    var lead, x, y := b[0] as int - 0xE0, b[1] as int - 0x80, b[2] as int - 0x80;
    assert (lead * 4096 + x * 64 + y) / 64 == lead * 64 + x;
  }

  lemma FourBytesExact(b: seq<byte>)
    requires |b| >= 4 && 0xF0 <= b[0] <= 0xF4 && SecondOk(b[0], b[1]) && Continues(b[2]) && Continues(b[3])
    ensures var x, y, z := b[1] as int - 0x80, b[2] as int - 0x80, b[3] as int - 0x80;
            var c := (b[0] as int - 0xF0) * 262144 + x * 4096 + y * 64 + z;
            && 0x1_0000 <= c < 0x11_0000
            && c / 262144 == b[0] as int - 0xF0 && c / 4096 % 64 == x && c / 64 % 64 == y && c % 64 == z
  {
    var lead, x, y, z := b[0] as int - 0xF0, b[1] as int - 0x80, b[2] as int - 0x80, b[3] as int - 0x80;
    var c := lead * 262144 + x * 4096 + y * 64 + z;
    assert c / 64 == lead * 4096 + x * 64 + y;
    assert c / 4096 == lead * 64 + x;
  }

  /** Decoding makes up no character: the first one is that of exactly the bytes it takes up, or stands
      for bytes that encode none. */
  lemma DecodesOrReplaces(b: seq<byte>)
    requires b != []
    ensures var (ch, n) := DecodeFirst(b); EncodeChar(ch) == b[..n] || ch == REPLACEMENT
  {
    var (ch, n) := DecodeFirst(b);
    if ch != REPLACEMENT && n == 2 {
      TwoBytesExact(b);
    } else if ch != REPLACEMENT && n == 3 {
      ThreeBytesExact(b);
    } else if ch != REPLACEMENT && n == 4 {
      FourBytesExact(b);
    }
  }

  /** The text in UTF-16, as the runtime holds it (section 2 of RFC 2781). */
  function Utf16(text: string): seq<int> {
    if text == "" then []
    else
      var c := text[0] as int;
      (if c < 0x1_0000 then [c] else [0xD800 + (c - 0x1_0000) / 0x400, 0xDC00 + (c - 0x1_0000) % 0x400])
      + Utf16(text[1..])
  }

  /** The length counted is the number of its units, all of which fit 16 bits. */
  lemma {:induction false} Utf16LengthCounts(text: string)
    ensures Utf16Length(text) == |Utf16(text)| && forall i :: 0 <= i < |Utf16(text)| ==> 0 <= Utf16(text)[i] < 0x1_0000
  {
    if text != "" { Utf16LengthCounts(text[1..]); }
  }
}
