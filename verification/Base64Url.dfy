/**
 * base64url without padding (section 5 of RFC 4648) and UTF-8 (section 3 of
 * RFC 3629), as `Buffer` encodes and decodes text.
 */
module Base64Url {
  type Byte = b: nat | b < 256

  /** A-Z, a-z, 0-9, `-` and `_`. */
  function EncodeSix(v: nat): char
    requires v < 64
  {
    if v < 26 then ('A' as int + v) as char
    else if v < 52 then ('a' as int + v - 26) as char
    else if v < 62 then ('0' as int + v - 52) as char
    else if v == 62 then '-'
    else '_'
  }

  predicate IsSix(c: char) {
    'A' <= c <= 'Z' || 'a' <= c <= 'z' || '0' <= c <= '9' || c == '-' || c == '_' || c == '+' || c == '/'
  }

  /** Both alphabets are understood when decoding. */
  function DecodeSix(c: char): (v: nat)
    requires IsSix(c)
    ensures v < 64
  {
    if 'A' <= c <= 'Z' then c as int - 'A' as int
    else if 'a' <= c <= 'z' then 26 + c as int - 'a' as int
    else if '0' <= c <= '9' then 52 + c as int - '0' as int
    else if c == '-' || c == '+' then 62
    else 63
  }

  function Encode(bytes: seq<Byte>): string
    decreases |bytes|
  {
    if |bytes| == 0 then ""
    else if |bytes| == 1 then [EncodeSix(bytes[0] / 4), EncodeSix(bytes[0] % 4 * 16)]
    else if |bytes| == 2 then
      [EncodeSix(bytes[0] / 4), EncodeSix(bytes[0] % 4 * 16 + bytes[1] / 16), EncodeSix(bytes[1] % 16 * 4)]
    else
      [EncodeSix(bytes[0] / 4), EncodeSix(bytes[0] % 4 * 16 + bytes[1] / 16),
       EncodeSix(bytes[1] % 16 * 4 + bytes[2] / 64), EncodeSix(bytes[2] % 64)]
      + Encode(bytes[3..])
  }

  /** Characters outside the alphabets are skipped. */
  function Sixes(s: string): seq<nat> {
    if s == "" then [] else (if IsSix(s[0]) then [DecodeSix(s[0])] else []) + Sixes(s[1..])
  }

  predicate AllSix(sixes: seq<nat>) {
    forall i :: 0 <= i < |sixes| ==> sixes[i] < 64
  }

  lemma {:induction false} SixesBelow64(s: string)
    ensures AllSix(Sixes(s))
  {
    if s != "" {
      SixesBelow64(s[1..]);
    }
  }

  /** Four sixes make three bytes; a tail of two makes one, of three makes two, a single one is dropped. */
  function Join(sixes: seq<nat>): seq<Byte>
    requires AllSix(sixes)
    decreases |sixes|
  {
    if |sixes| < 2 then []
    else
      var a: Byte := sixes[0] * 4 + sixes[1] / 16;
      if |sixes| == 2 then [a]
      else
        var b: Byte := sixes[1] % 16 * 16 + sixes[2] / 4;
        if |sixes| == 3 then [a, b]
        else
          var c: Byte := sixes[2] % 4 * 64 + sixes[3];
          [a, b, c] + Join(sixes[4..])
  }

  function Decode(s: string): seq<Byte> {
    SixesBelow64(s);
    Join(Sixes(s))
  }

  /** Three bytes make four characters; one or two left over make two or three, without padding. */
  lemma {:induction false} EncodedLength(bytes: seq<Byte>)
    ensures |Encode(bytes)| == (4 * |bytes| + 2) / 3
    decreases |bytes|
  {
    if |bytes| > 3 {
      EncodedLength(bytes[3..]);
    }
  }

  lemma SixRoundTrip(v: nat)
    requires v < 64
    ensures IsSix(EncodeSix(v)) && DecodeSix(EncodeSix(v)) == v
    ensures EncodeSix(v) != '.'
  {
  }

  function EncodedSixes(bytes: seq<Byte>): (sixes: seq<nat>)
    ensures AllSix(sixes)
    decreases |bytes|
  {
    if |bytes| == 0 then []
    else if |bytes| == 1 then [bytes[0] / 4, bytes[0] % 4 * 16]
    else if |bytes| == 2 then [bytes[0] / 4, bytes[0] % 4 * 16 + bytes[1] / 16, bytes[1] % 16 * 4]
    else
      [bytes[0] / 4, bytes[0] % 4 * 16 + bytes[1] / 16, bytes[1] % 16 * 4 + bytes[2] / 64, bytes[2] % 64]
      + EncodedSixes(bytes[3..])
  }

  lemma {:induction false} SixesOfCons(v: nat, s: string)
    requires v < 64
    ensures Sixes([EncodeSix(v)] + s) == [v] + Sixes(s)
  {
    SixRoundTrip(v);
    assert ([EncodeSix(v)] + s)[1..] == s;
  }

  lemma {:induction false} SixesOfEncode(bytes: seq<Byte>)
    ensures Sixes(Encode(bytes)) == EncodedSixes(bytes)
    decreases |bytes|
  {
    hide EncodeSix, IsSix, DecodeSix;
    if |bytes| > 0 {
      var a := bytes[0] / 4;
      if |bytes| == 1 {
        var b := bytes[0] % 4 * 16;
        SixesOfCons(b, "");
        SixesOfCons(a, [EncodeSix(b)]);
        assert Encode(bytes) == [EncodeSix(a)] + ([EncodeSix(b)] + "");
      } else if |bytes| == 2 {
        var b, c := bytes[0] % 4 * 16 + bytes[1] / 16, bytes[1] % 16 * 4;
        SixesOfCons(c, "");
        SixesOfCons(b, [EncodeSix(c)] + "");
        SixesOfCons(a, [EncodeSix(b)] + ([EncodeSix(c)] + ""));
        assert Encode(bytes) == [EncodeSix(a)] + ([EncodeSix(b)] + ([EncodeSix(c)] + ""));
      } else {
        var b, c, d := bytes[0] % 4 * 16 + bytes[1] / 16, bytes[1] % 16 * 4 + bytes[2] / 64, bytes[2] % 64;
        SixesOfEncode(bytes[3..]);
        SixesOfFour(a, b, c, d, Encode(bytes[3..]));
        hide Sixes;
        assert Encode(bytes) == [EncodeSix(a), EncodeSix(b), EncodeSix(c), EncodeSix(d)] + Encode(bytes[3..]);
      }
    }
  }

  lemma SixesOfFour(a: nat, b: nat, c: nat, d: nat, rest: string)
    requires a < 64 && b < 64 && c < 64 && d < 64
    ensures Sixes([EncodeSix(a), EncodeSix(b), EncodeSix(c), EncodeSix(d)] + rest) == [a, b, c, d] + Sixes(rest)
  {
    hide EncodeSix, Sixes;
    var s := [EncodeSix(a)] + ([EncodeSix(b)] + ([EncodeSix(c)] + ([EncodeSix(d)] + rest)));
    SixesOfCons(d, rest);
    SixesOfCons(c, [EncodeSix(d)] + rest);
    SixesOfCons(b, [EncodeSix(c)] + ([EncodeSix(d)] + rest));
    SixesOfCons(a, [EncodeSix(b)] + ([EncodeSix(c)] + ([EncodeSix(d)] + rest)));
    assert [EncodeSix(a), EncodeSix(b), EncodeSix(c), EncodeSix(d)] + rest == s;
  }

  lemma {:induction false} JoinOfSixes(bytes: seq<Byte>)
    ensures Join(EncodedSixes(bytes)) == bytes
    decreases |bytes|
  {
    if |bytes| > 2 {
      JoinOfSixes(bytes[3..]);
      assert EncodedSixes(bytes)[4..] == EncodedSixes(bytes[3..]);
      assert bytes == [bytes[0], bytes[1], bytes[2]] + bytes[3..];
    }
  }

  /** Bytes of any number come back. */
  lemma DecodeOfEncode(bytes: seq<Byte>)
    ensures Decode(Encode(bytes)) == bytes
  {
    SixesOfEncode(bytes);
    JoinOfSixes(bytes);
  }

  /** Encoded text never contains the point that separates the parts of a token. */
  lemma {:induction false} EncodeHasNoPoint(bytes: seq<Byte>)
    ensures '.' !in Encode(bytes)
    decreases |bytes|
  {
    forall v: nat | v < 64 ensures EncodeSix(v) != '.' {
      SixRoundTrip(v);
    }
    hide EncodeSix;
    if |bytes| > 2 {
      EncodeHasNoPoint(bytes[3..]);
    }
  }

  // ---- UTF-8

  function Utf8Char(c: char): (bytes: seq<Byte>)
    ensures 1 <= |bytes| <= 4
  {
    var v := c as int;
    if v < 0x80 then [v]
    else if v < 0x800 then [0xC0 + v / 0x40, 0x80 + v % 0x40]
    else if v < 0x1_0000 then [0xE0 + v / 0x1000, 0x80 + v / 0x40 % 0x40, 0x80 + v % 0x40]
    else [0xF0 + v / 0x4_0000, 0x80 + v / 0x1000 % 0x40, 0x80 + v / 0x40 % 0x40, 0x80 + v % 0x40]
  }

  function Utf8(s: string): seq<Byte> {
    if s == "" then [] else Utf8Char(s[0]) + Utf8(s[1..])
  }

  predicate IsScalar(v: int) {
    0 <= v < 0xD800 || 0xE000 <= v < 0x11_0000
  }

  predicate IsContinuation(b: Byte) {
    0x80 <= b < 0xC0
  }

  /** How many bytes the character takes, by its first byte; 0 for a byte that starts none. */
  function Width(b: Byte): (n: nat)
    ensures n <= 4
  {
    if b < 0x80 then 1 else if b < 0xC0 then 0 else if b < 0xE0 then 2 else if b < 0xF0 then 3 else 4
  }

  /** The value the first `n` bytes spell. */
  function Spelled(bytes: seq<Byte>, n: nat): int
    requires 1 <= n <= 4 && n <= |bytes|
  {
    var b: int := bytes[0];
    if n == 1 then b
    else
      var c: int := bytes[1] as int - 0x80;
      if n == 2 then (b - 0xC0) * 0x40 + c
      else
        var d: int := bytes[2] as int - 0x80;
        if n == 3 then (b - 0xE0) * 0x1000 + c * 0x40 + d
        else
          var e: int := bytes[3] as int - 0x80;
          (b - 0xF0) * 0x4_0000 + c * 0x1000 + d * 0x40 + e
  }

  /** The character at the front and how many bytes it takes; malformed input gives one replacement character. */
  function FrontChar(bytes: seq<Byte>): (r: (char, nat))
    requires bytes != []
    ensures 1 <= r.1 <= |bytes|
  {
    var n := Width(bytes[0]);
    if n == 0 || n > |bytes| || (exists i :: 1 <= i < n && !IsContinuation(bytes[i])) then ('\U{FFFD}', 1)
    else if IsScalar(Spelled(bytes, n)) then (Spelled(bytes, n) as char, n)
    else ('\U{FFFD}', 1)
  }

  function FromUtf8(bytes: seq<Byte>): string
    decreases |bytes|
  {
    if bytes == [] then ""
    else
      var (c, n) := FrontChar(bytes);
      [c] + FromUtf8(bytes[n..])
  }

  lemma SpelledOfChar(c: char, rest: seq<Byte>)
    ensures var bytes := Utf8Char(c) + rest;
      && Width(bytes[0]) == |Utf8Char(c)|
      && Spelled(bytes, |Utf8Char(c)|) == c as int
      && forall i :: 1 <= i < |Utf8Char(c)| ==> IsContinuation(bytes[i])
  {
    var v := c as int;
    if v >= 0x1_0000 {
      Digits64(v);
    } else if v >= 0x800 {
      Digits64(v);
    }
  }

  lemma Digits64(v: nat)
    ensures v == v / 0x1000 * 0x1000 + v / 0x40 % 0x40 * 0x40 + v % 0x40
    ensures v == v / 0x4_0000 * 0x4_0000 + v / 0x1000 % 0x40 * 0x1000 + v / 0x40 % 0x40 * 0x40 + v % 0x40
  {
    Quotient64(v, 0x40, 0x1000);
    Quotient64(v, 0x1000, 0x4_0000);
    assert v == v / 0x40 * 0x40 + v % 0x40;
  }

  lemma Quotient64(v: nat, d: nat, e: nat)
    requires (d == 0x40 && e == 0x1000) || (d == 0x1000 && e == 0x4_0000)
    ensures v / d == v / e * 0x40 + v / d % 0x40
  {
    assert v / d / 0x40 == v / e;
  }

  lemma FrontOfChar(c: char, rest: seq<Byte>)
    ensures FrontChar(Utf8Char(c) + rest) == (c, |Utf8Char(c)|)
  {
    SpelledOfChar(c, rest);
    hide Utf8Char, Spelled, Width;
    assert IsScalar(c as int);
  }

  /** Text comes back, whatever its characters. */
  lemma {:induction false} FromUtf8OfUtf8(s: string)
    ensures FromUtf8(Utf8(s)) == s
  {
    hide FrontChar, Utf8Char;
    if s != "" {
      var rest := Utf8(s[1..]);
      FrontOfChar(s[0], rest);
      assert Utf8(s)[|Utf8Char(s[0])|..] == rest;
      FromUtf8OfUtf8(s[1..]);
      assert s == [s[0]] + s[1..];
    }
  }
}
