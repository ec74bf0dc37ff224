/** UTF-8 of Unicode scalar values: Python's `encode("utf-8")` and strict `decode`. */
module Utf8 {

  type Byte = x: int | 0 <= x < 256

  predicate Scalar(n: int) {
    0 <= n < 0xD800 || 0xE000 <= n < 0x110000
  }

  function EncodeChar(c: char): (r: seq<Byte>)
    ensures 1 <= |r| <= 4
  {
    var n := c as int;
    if n < 0x80 then [n]
    else if n < 0x800 then [0xC0 + n / 0x40, 0x80 + n % 0x40]
    else if n < 0x10000 then [0xE0 + n / 0x1000, 0x80 + n / 0x40 % 0x40, 0x80 + n % 0x40]
    else [0xF0 + n / 0x40000, 0x80 + n / 0x1000 % 0x40, 0x80 + n / 0x40 % 0x40, 0x80 + n % 0x40]
  }

  function Encode(s: string): (r: seq<Byte>)
    ensures |s| <= |r|
  {
    if s == "" then [] else EncodeChar(s[0]) + Encode(s[1..])
  }

  predicate Continues(b: Byte) {
    0x80 <= b < 0xC0
  }

  /** How many bytes a sequence with this first byte has; 0 if it starts none. */
  function Width(first: Byte): nat {
    if first < 0x80 then 1
    else if first < 0xC2 then 0
    else if first < 0xE0 then 2
    else if first < 0xF0 then 3
    else if first < 0xF5 then 4
    else 0
  }

  /** The number a sequence of the right shape stands for. */
  function CodePoint(b: seq<Byte>, width: nat): int
    requires 1 <= width <= 4 && width <= |b|
  {
    if width == 1 then b[0]
    else if width == 2 then Join(0xC0, [b[0], b[1]])
    else if width == 3 then Join(0xE0, [b[0], b[1], b[2]])
    else Join(0xF0, [b[0], b[1], b[2], b[3]])
  }

  /** Six bits per continuation byte, after the bits of the first one. */
  function Join(mark: int, b: seq<int>): int
    requires 2 <= |b| <= 4
  {
    var high := (b[0] - mark) * 0x40 + b[1] - 0x80;
    if |b| == 2 then high
    else if |b| == 3 then high * 0x40 + b[2] - 0x80
    else (high * 0x40 + b[2] - 0x80) * 0x40 + b[3] - 0x80
  }

  /** The least code point that needs `width` bytes. */
  function Least(width: nat): int {
    if width <= 1 then 0 else if width == 2 then 0x80 else if width == 3 then 0x800 else 0x10000
  }

  /** The width of the well-formed sequence at the front of some bytes; 0 if there is none.
      Overlong forms, surrogates and numbers beyond Unicode are malformed. */
  function Front(b: seq<Byte>): (width: nat)
    ensures width <= 4 && width <= |b|
    ensures width > 0 ==> Scalar(CodePoint(b, width))
  {
    if b == [] then 0
    else
      var width := Width(b[0]);
      if width == 0 || |b| < width || !(forall i :: 1 <= i < width ==> Continues(b[i])) then 0
      else if Scalar(CodePoint(b, width)) && Least(width) <= CodePoint(b, width) then width
      else 0
  }

  datatype Decoded = Text(text: string) | Malformed

  function Decode(b: seq<Byte>): Decoded {
    if b == [] then Text("")
    else
      var width := Front(b);
      if width == 0 then Malformed
      else
        match Decode(b[width..])
        case Text(rest) => Text([CodePoint(b, width) as char] + rest)
        case Malformed => Malformed
  }

  lemma CharRoundTrip(c: char, rest: seq<Byte>)
    ensures var b := EncodeChar(c) + rest;
      Front(b) == |EncodeChar(c)| && CodePoint(b, Front(b)) == c as int && b[Front(b)..] == rest
  {
    CharFront(c, EncodeChar(c) + rest);
  }

  lemma SixBits(n: nat)
    ensures n / 0x40 * 0x40 + n % 0x40 == n && n / 0x1000 == n / 0x40 / 0x40 && n / 0x40000 == n / 0x1000 / 0x40
  {
  }

  lemma CharShape(c: char)
    ensures var e, n := EncodeChar(c), c as int;
      && Width(e[0]) == |e| && CodePoint(e, |e|) == n && Least(|e|) <= n && Scalar(n)
      && forall i :: 1 <= i < |e| ==> Continues(e[i])
  {
    var n := c as int;
    SixBits(n);
    SixBits(n / 0x40);
    SixBits(n / 0x1000);
  }

  lemma CharFront(c: char, b: seq<Byte>)
    requires EncodeChar(c) <= b
    ensures Front(b) == |EncodeChar(c)| && CodePoint(b, Front(b)) == c as int
  {
    var e := EncodeChar(c);
    CharShape(c);
    assert forall i :: 0 <= i < |e| ==> b[i] == e[i];
    hide EncodeChar, Join, Width, Least, Scalar;
    assert CodePoint(b, |e|) == CodePoint(e, |e|);
  }

  /** Strict decoding undoes encoding. */
  lemma {:induction false} DecodeUndoesEncode(s: string)
    ensures Decode(Encode(s)) == Text(s)
  {
    if s != "" {
      DecodeUndoesEncode(s[1..]);
      CharRoundTrip(s[0], Encode(s[1..]));
      hide Front, CodePoint, EncodeChar;
      assert [s[0]] + s[1..] == s;
    }
  }

  lemma EncodeIsInjective(s: string, t: string)
    requires Encode(s) == Encode(t)
    ensures s == t
  {
    DecodeUndoesEncode(s);
    DecodeUndoesEncode(t);
  }

  lemma Shift(high: int, low: int)
    requires 0 <= low < 0x40
    ensures (high * 0x40 + low) / 0x40 == high && (high * 0x40 + low) % 0x40 == low
  {
  }

  lemma TwoBytes(b: seq<Byte>, n: int)
    requires |b| == 2 && Width(b[0]) == 2 && Continues(b[1]) && n == CodePoint(b, 2) && n >= 0x80 && Scalar(n)
    ensures EncodeChar(n as char) == b
  {
    Shift(b[0] - 0xC0, b[1] - 0x80);
  }

  lemma ThreeBytes(b: seq<Byte>, n: int)
    requires |b| == 3 && Width(b[0]) == 3 && Continues(b[1]) && Continues(b[2]) && n == CodePoint(b, 3) && n >= 0x800 && Scalar(n)
    ensures EncodeChar(n as char) == b
  {
    var high: int := (b[0] as int - 0xE0) * 0x40 + b[1] as int - 0x80;
    Shift(b[0] - 0xE0, b[1] - 0x80);
    Shift(high, b[2] - 0x80);
    assert n / 0x1000 == n / 0x40 / 0x40;
  }

  lemma FourBytes(b: seq<Byte>, n: int)
    requires |b| == 4 && Width(b[0]) == 4 && Continues(b[1]) && Continues(b[2]) && Continues(b[3])
    requires n == CodePoint(b, 4) && n >= 0x10000 && Scalar(n)
    ensures EncodeChar(n as char) == b
  {
    var high: int := (b[0] as int - 0xF0) * 0x40 + b[1] as int - 0x80;
    Shift(b[0] - 0xF0, b[1] - 0x80);
    Shift(high, b[2] - 0x80);
    Shift(high * 0x40 + b[2] - 0x80, b[3] - 0x80);
    assert n / 0x1000 == n / 0x40 / 0x40 && n / 0x40000 == n / 0x40 / 0x40 / 0x40;
  }

  /** A well-formed sequence is the encoding of its code point. */
  lemma FrontIsEncoded(b: seq<Byte>)
    requires Front(b) > 0
    ensures EncodeChar(CodePoint(b, Front(b)) as char) == b[..Front(b)]
  {
    var width := Front(b);
    var front, n := b[..width], CodePoint(b, width);
    assert CodePoint(front, width) == n && front[0] == b[0];
    hide EncodeChar, Front, Join;
    assert width == Width(b[0]) && Least(width) <= n && forall i :: 1 <= i < width ==> Continues(b[i]) by {
      FrontParts(b);
    }
    if width == 1 {
      OneByte(front);
    } else if width == 2 {
      TwoBytes(front, n);
    } else if width == 3 {
      ThreeBytes(front, n);
    } else {
      FourBytes(front, n);
    }
  }

  lemma OneByte(b: seq<Byte>)
    requires |b| == 1 && Width(b[0]) == 1
    ensures EncodeChar(b[0] as char) == b
  {
  }

  lemma FrontParts(b: seq<Byte>)
    requires Front(b) > 0
    ensures Front(b) == Width(b[0]) && Least(Front(b)) <= CodePoint(b, Front(b)) && forall i :: 1 <= i < Front(b) ==> Continues(b[i])
  {
  }

  /** Strict decoding takes exactly the encodings of texts. */
  lemma {:induction false} DecodeIffEncode(b: seq<Byte>, s: string)
    ensures Decode(b) == Text(s) <==> b == Encode(s)
    decreases |b|
  {
    DecodeUndoesEncode(s);
    if Decode(b) == Text(s) && b != [] {
      var width := Front(b);
      FrontIsEncoded(b);
      hide EncodeChar, CodePoint, Front;
      DecodeIffEncode(b[width..], s[1..]);
      assert b == b[..width] + b[width..];
    }
  }
}
