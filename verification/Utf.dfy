/** Escaping: every character outside ASCII becomes a backslash, a u and its code point in
    hexadecimal. */
module Utf {
  import opened Seqs

  type Byte = n: nat | n < 256 witness 0

  type Bytes = seq<Byte>

  const BACKSLASH: Byte := 0x5C
  const LETTER_U: Byte := 0x75
  const REPLACEMENT := 0xFFFD

  // ----- UTF-8 (RFC 3629)

  /** A code point UTF-8 may encode. */
  predicate Scalar(r: int) {
    0 <= r < 0xD800 || 0xE000 <= r <= 0x10FFFF
  }

  predicate Between(b: Byte, low: Byte, high: Byte) { low <= b <= high }

  predicate Tail(b: Byte) { Between(b, 0x80, 0xBF) }

  /** The code point of two, three or four bytes. */
  function Two(a: int, b: int): int { (a - 0xC0) * 0x40 + (b - 0x80) }

  function Three(a: int, b: int, c: int): int { (a - 0xE0) * 0x1000 + (b - 0x80) * 0x40 + (c - 0x80) }

  function Four(a: int, b: int, c: int, e: int): int {
    (a - 0xF0) * 0x40000 + (b - 0x80) * 0x1000 + (c - 0x80) * 0x40 + (e - 0x80)
  }

  datatype Rune = Rune(value: nat, size: nat)

  const INVALID := Rune(REPLACEMENT, 1)

  /** The bounds on the second byte that keep out overlong forms, surrogates and what lies beyond
      the last code point. */
  predicate SecondFits(first: Byte, second: Byte) {
    if first == 0xE0 then Between(second, 0xA0, 0xBF)
    else if first == 0xED then Between(second, 0x80, 0x9F)
    else if first == 0xF0 then Between(second, 0x90, 0xBF)
    else if first == 0xF4 then Between(second, 0x80, 0x8F)
    else Tail(second)
  }

  /** utf8.DecodeRune on a text that is not empty; an invalid byte counts as one replacement
      character. */
  function DecodeRune(d: Bytes): (r: Rune)
    requires d != []
    ensures 1 <= r.size <= |d| && r.value <= 0x10FFFF
    ensures r.value < 128 <==> d[0] < 128
    ensures d[0] < 128 ==> r == Rune(d[0], 1)
  {
    var b := d[0];
    if b < 0x80 then Rune(b, 1)
    else if Between(b, 0xC2, 0xDF) && |d| >= 2 && SecondFits(b, d[1]) then
      Rune(Two(b, d[1]), 2)
    else if Between(b, 0xE0, 0xEF) && |d| >= 3 && SecondFits(b, d[1]) && Tail(d[2]) then
      Rune(Three(b, d[1], d[2]), 3)
    else if Between(b, 0xF0, 0xF4) && |d| >= 4 && SecondFits(b, d[1]) && Tail(d[2]) && Tail(d[3]) then
      Rune(Four(b, d[1], d[2], d[3]), 4)
    else INVALID
  }

  /** The encoding of section 3. */
  function Utf8(r: nat): (s: Bytes)
    requires Scalar(r)
    ensures 1 <= |s| <= 4 && (r <= 0xFFFF ==> |s| <= 3)
    ensures r < 128 ==> s == [r]
    ensures r >= 128 ==> s[0] >= 0xC2
    ensures r > 0xFFFF <==> s[0] >= 0xF0
  {
    if r < 0x80 then [r]
    else if r < 0x800 then [0xC0 + r / 0x40, 0x80 + r % 0x40]
    else if r < 0x10000 then [0xE0 + r / 0x1000, 0x80 + r / 0x40 % 0x40, 0x80 + r % 0x40]
    else [0xF0 + r / 0x40000, 0x80 + r / 0x1000 % 0x40, 0x80 + r / 0x40 % 0x40, 0x80 + r % 0x40]
  }

  lemma Sixes(w: nat, x: nat, y: nat, z: nat)
    requires w < 0x40 && x < 0x40 && y < 0x40 && z < 0x40
    ensures var r := w * 0x40000 + x * 0x1000 + y * 0x40 + z;
            r / 0x40000 == w && r / 0x1000 % 0x40 == x && r / 0x40 % 0x40 == y && r % 0x40 == z
  {
    var r := w * 0x40000 + x * 0x1000 + y * 0x40 + z;
    assert r / 0x1000 == w * 0x40 + x;
    assert r / 0x40 == (w * 0x40 + x) * 0x40 + y;
  }

  lemma Utf8Two(a: int, b: int)
    requires 0xC2 <= a <= 0xDF && 0x80 <= b <= 0xBF
    ensures 0x80 <= Two(a, b) < 0x800 && Utf8(Two(a, b)) == [a, b]
  {
    Sixes(0, 0, a - 0xC0, b - 0x80);
  }

  lemma Utf8Three(a: int, b: int, c: int)
    requires 0xE0 <= a <= 0xEF && 0x80 <= b <= 0xBF && 0x80 <= c <= 0xBF
    requires (a == 0xE0 ==> b >= 0xA0) && (a == 0xED ==> b <= 0x9F)
    ensures 0x800 <= Three(a, b, c) < 0x10000 && Scalar(Three(a, b, c)) && Utf8(Three(a, b, c)) == [a, b, c]
  {
    Sixes(0, a - 0xE0, b - 0x80, c - 0x80);
    var r := Three(a, b, c);
    assert r / 0x1000 == a - 0xE0;
  }

  lemma Utf8Four(a: int, b: int, c: int, e: int)
    requires 0xF0 <= a <= 0xF4 && 0x80 <= b <= 0xBF && 0x80 <= c <= 0xBF && 0x80 <= e <= 0xBF
    requires (a == 0xF0 ==> b >= 0x90) && (a == 0xF4 ==> b <= 0x8F)
    ensures 0x10000 <= Four(a, b, c, e) <= 0x10FFFF && Utf8(Four(a, b, c, e)) == [a, b, c, e]
  {
    Sixes(a - 0xF0, b - 0x80, c - 0x80, e - 0x80);
  }

  /** What is decoded and not invalid is the encoding of its code point. */
  lemma {:induction false} Utf8Decode(d: Bytes)
    requires d != [] && DecodeRune(d) != INVALID
    ensures Scalar(DecodeRune(d).value) && d[..DecodeRune(d).size] == Utf8(DecodeRune(d).value)
  {
    var r := DecodeRune(d);
    if r.size == 2 {
      Utf8Two(d[0], d[1]);
    } else if r.size == 3 {
      Utf8Three(d[0], d[1], d[2]);
    } else if r.size == 4 {
      Utf8Four(d[0], d[1], d[2], d[3]);
    }
  }

  lemma UnSixes(r: nat)
    ensures r == r / 0x40000 * 0x40000 + r / 0x1000 % 0x40 * 0x1000 + r / 0x40 % 0x40 * 0x40 + r % 0x40
    ensures r / 0x1000 == r / 0x40000 * 0x40 + r / 0x1000 % 0x40
  {
    var x, y := r / 0x40, r / 0x1000;
    assert r == x * 0x40 + r % 0x40;
    assert x == y * 0x40 + x % 0x40;
    assert y == r / 0x40000 * 0x40 + y % 0x40;
  }

  lemma DecodeTwo(r: nat)
    requires 0x80 <= r < 0x800
    ensures var s := Utf8(r);
            |s| == 2 && Between(s[0], 0xC2, 0xDF) && SecondFits(s[0], s[1]) && r == Two(s[0], s[1])
  {
  }

  lemma DecodeThree(r: nat)
    requires 0x800 <= r < 0x10000 && Scalar(r)
    ensures var s := Utf8(r);
            |s| == 3 && Between(s[0], 0xE0, 0xEF) && SecondFits(s[0], s[1]) && Tail(s[2])
            && r == Three(s[0], s[1], s[2])
  {
    UnSixes(r);
  }

  lemma DecodeFour(r: nat)
    requires 0x10000 <= r <= 0x10FFFF
    ensures var s := Utf8(r);
            |s| == 4 && Between(s[0], 0xF0, 0xF4) && SecondFits(s[0], s[1]) && Tail(s[2]) && Tail(s[3])
            && r == Four(s[0], s[1], s[2], s[3])
  {
    UnSixes(r);
  }

  /** Decoding an encoded code point gives it back. */
  lemma {:induction false} DecodeUtf8(r: nat, rest: Bytes)
    requires Scalar(r)
    ensures DecodeRune(Utf8(r) + rest) == Rune(r, |Utf8(r)|)
  {
    if r >= 0x10000 {
      DecodeFour(r);
    } else if r >= 0x800 {
      DecodeThree(r);
    } else if r >= 0x80 {
      DecodeTwo(r);
    }
    var s := Utf8(r) + rest;
    assert forall i :: 0 <= i < |Utf8(r)| ==> s[i] == Utf8(r)[i];
  }

  /** Decoding fails exactly when no encoding stands at the front; then one byte is taken, for the
      replacement character. */
  lemma {:induction false} InvalidExactly(d: Bytes)
    requires d != []
    ensures (exists r :: Scalar(r) && Utf8(r) <= d) <==> DecodeRune(d) != Rune(0xFFFD, 1)
  {
    if r :| Scalar(r) && Utf8(r) <= d {
      DecodeUtf8(r, d[|Utf8(r)|..]);
      assert d == Utf8(r) + d[|Utf8(r)|..];
      assert r == 0xFFFD ==> |Utf8(r)| == 3;
    }
    if DecodeRune(d) != Rune(0xFFFD, 1) {
      Utf8Decode(d);
      assert Utf8(DecodeRune(d).value) <= d;
    }
  }

  // ----- Hexadecimal

  function Digit(n: nat): Byte
    requires n < 16
  {
    if n < 10 then 0x30 + n else 0x57 + n
  }

  predicate IsHex(b: Byte) {
    Between(b, 0x30, 0x39) || Between(b, 0x41, 0x46) || Between(b, 0x61, 0x66)
  }

  function Value(b: Byte): (n: nat)
    requires IsHex(b)
    ensures n < 16
  {
    if b <= 0x39 then b - 0x30 else if b <= 0x46 then b - 0x37 else b - 0x57
  }

  function Hex4(r: nat): Bytes
    requires r < 0x10000
  {
    [Digit(r / 0x1000), Digit(r / 0x100 % 16), Digit(r / 0x10 % 16), Digit(r % 16)]
  }

  /** The format %04x. */
  function Hex(r: nat): Bytes
    requires r <= 0x10FFFF
  {
    if r < 0x10000 then Hex4(r)
    else if r < 0x100000 then Hex4(r / 0x10) + [Digit(r % 16)]
    else Hex4(r / 0x100) + [Digit(r / 0x10 % 16), Digit(r % 16)]
  }

  function Value4(s: Bytes): (r: nat)
    requires |s| == 4 && forall i :: 0 <= i < 4 ==> IsHex(s[i])
    ensures r < 0x10000
  {
    Value(s[0]) * 0x1000 + Value(s[1]) * 0x100 + Value(s[2]) * 0x10 + Value(s[3])
  }

  lemma DigitIsHex(n: nat)
    requires n < 16
    ensures IsHex(Digit(n)) && Value(Digit(n)) == n && Digit(n) < 128
  {
  }

  lemma Nibbles(r: nat)
    requires r < 0x10000
    ensures r == r / 0x1000 * 0x1000 + r / 0x100 % 16 * 0x100 + r / 0x10 % 16 * 0x10 + r % 16
  {
    var x, y := r / 0x10, r / 0x100;
    assert r == x * 0x10 + r % 0x10;
    assert x == y * 0x10 + x % 0x10;
    assert y == r / 0x1000 * 0x10 + y % 0x10;
  }

  lemma Value4Hex4(r: nat)
    requires r < 0x10000
    ensures (forall i :: 0 <= i < 4 ==> IsHex(Hex4(r)[i]) && Hex4(r)[i] < 128) && Value4(Hex4(r)) == r
  {
    Nibbles(r);
    DigitIsHex(r / 0x1000);
    DigitIsHex(r / 0x100 % 16);
    DigitIsHex(r / 0x10 % 16);
    DigitIsHex(r % 16);
  }

  function Numeral(s: Bytes): nat
    requires forall i :: 0 <= i < |s| ==> IsHex(s[i])
  {
    if s == [] then 0 else Numeral(s[..|s| - 1]) * 16 + Value(s[|s| - 1])
  }

  lemma OneMoreDigit(s: Bytes, n: nat)
    requires (forall i :: 0 <= i < |s| ==> IsHex(s[i])) && n < 16
    ensures forall i :: 0 <= i < |s| + 1 ==> IsHex((s + [Digit(n)])[i])
    ensures Numeral(s + [Digit(n)]) == Numeral(s) * 16 + n
  {
    DigitIsHex(n);
    assert (s + [Digit(n)])[..|s|] == s;
  }

  lemma NumeralHex4(r: nat)
    requires r < 0x10000
    ensures (forall i :: 0 <= i < 4 ==> IsHex(Hex4(r)[i])) && Numeral(Hex4(r)) == r
  {
    Nibbles(r);
    OneMoreDigit([], r / 0x1000);
    OneMoreDigit([] + [Digit(r / 0x1000)], r / 0x100 % 16);
    OneMoreDigit([] + [Digit(r / 0x1000)] + [Digit(r / 0x100 % 16)], r / 0x10 % 16);
    OneMoreDigit([] + [Digit(r / 0x1000)] + [Digit(r / 0x100 % 16)] + [Digit(r / 0x10 % 16)], r % 16);
    assert Hex4(r) == [] + [Digit(r / 0x1000)] + [Digit(r / 0x100 % 16)] + [Digit(r / 0x10 % 16)] + [Digit(r % 16)];
  }

  lemma SixDigits(r: nat) returns (y: nat, high: nat, low: nat)
    requires 0x100000 <= r <= 0x10FFFF
    ensures 0x1000 <= y < 0x10000 && high < 16 && low < 16 && r == (y * 16 + high) * 16 + low
    ensures Hex(r) == Hex4(y) + [Digit(high)] + [Digit(low)]
  {
    y, high, low := r / 0x100, r / 0x10 % 16, r % 16;
  }

  lemma NumeralHex6(r: nat)
    requires 0x100000 <= r <= 0x10FFFF
    ensures (forall i :: 0 <= i < |Hex(r)| ==> IsHex(Hex(r)[i])) && Numeral(Hex(r)) == r
  {
    var y, high, low := SixDigits(r);
    NumeralHex4(y);
    OneMoreDigit(Hex4(y), high);
    OneMoreDigit(Hex4(y) + [Digit(high)], low);
  }

  /** The digits are those of the number, in lower case, at least four, with no zero in front of
      more. */
  lemma {:induction false} HexIsNumeral(r: nat)
    requires r <= 0x10FFFF
    ensures (forall i :: 0 <= i < |Hex(r)| ==> IsHex(Hex(r)[i])) && Numeral(Hex(r)) == r
    ensures |Hex(r)| >= 4 && (|Hex(r)| > 4 ==> Hex(r)[0] != Digit(0))
    ensures forall i :: 0 <= i < |Hex(r)| ==> !Between(Hex(r)[i], 0x41, 0x46)
  {
    if r < 0x10000 {
      NumeralHex4(r);
    } else if r < 0x100000 {
      NumeralHex4(r / 0x10);
      OneMoreDigit(Hex4(r / 0x10), r % 16);
    } else {
      NumeralHex6(r);
    }
  }

  // ----- Escaping and its inverse

  function Piece(r: nat): Bytes
    requires r <= 0x10FFFF
  {
    if r < 128 then [r] else [BACKSLASH, LETTER_U] + Hex(r)
  }

  function Escape(d: Bytes): Bytes {
    if d == [] then [] else Piece(DecodeRune(d).value) + Escape(d[DecodeRune(d).size..])
  }

  /** One character: itself in ASCII, otherwise a backslash, a "u" and its digits. */
  lemma {:induction false} OneEscaped(r: nat)
    requires Scalar(r)
    ensures Escape(Utf8(r)) == if r < 128 then [r] else [0x5C, 0x75] + Hex(r)
  {
    DecodeUtf8(r, []);
    assert Utf8(r) + [] == Utf8(r);
    assert Utf8(r)[|Utf8(r)|..] == [];
    assert Piece(r) + [] == Piece(r);
  }

  /** The text begins with a backslash, a u and four hexadecimal digits. */
  predicate EscapeAt(s: Bytes) {
    && |s| >= 6 && s[0] == BACKSLASH && s[1] == LETTER_U
    && IsHex(s[2]) && IsHex(s[3]) && IsHex(s[4]) && IsHex(s[5])
  }

  function Escaped(s: Bytes): nat
    requires EscapeAt(s)
  {
    Value4(s[2..6])
  }

  /** The character an escape stands for; half of a surrogate pair stands for none. */
  function Meaning(v: nat): (s: Bytes)
    requires v < 0x10000
    ensures 1 <= |s| <= 3 && s[0] < 0xF0
    ensures v < 128 ==> s == [v]
    ensures v >= 128 ==> s[0] >= 0xC2
  {
    if Scalar(v) then Utf8(v) else Utf8(REPLACEMENT)
  }

  /** Every escape is read back as a character, all else is copied. */
  function Unescape(s: Bytes): Bytes {
    if s == [] then []
    else if EscapeAt(s) then Meaning(Escaped(s)) + Unescape(s[6..])
    else [s[0]] + Unescape(s[1..])
  }

  predicate Ascii(s: Bytes) {
    forall i :: 0 <= i < |s| ==> s[i] < 128
  }

  lemma HexAscii(r: nat)
    requires r <= 0x10FFFF
    ensures Ascii(Hex(r))
  {
    if r < 0x10000 {
      Value4Hex4(r);
    } else if r < 0x100000 {
      Value4Hex4(r / 0x10);
    } else {
      Value4Hex4(r / 0x100);
    }
  }

  /** Whatever is escaped is ASCII. */
  lemma {:induction false} EscapeAscii(d: Bytes)
    ensures Ascii(Escape(d))
  {
    if d != [] {
      var r := DecodeRune(d);
      HexAscii(r.value);
      EscapeAscii(d[r.size..]);
    }
  }

  lemma EscapeNext(d: Bytes)
    requires d != []
    ensures Escape(d) == Piece(DecodeRune(d).value) + Escape(d[DecodeRune(d).size..])
  {
  }

  lemma EscapeLiteral(d: Bytes)
    requires d != [] && d[0] < 128
    ensures Escape(d) == [d[0]] + Escape(d[1..])
  {
  }

  method UtfToUnicode(text: Bytes) returns (buffer: Bytes)
    ensures buffer == Escape(text) && Ascii(buffer)
  {
    buffer := [];
    var d := text;
    while |d| > 0
      invariant Escape(text) == buffer + Escape(d)
      decreases |d|
    {
      var r := DecodeRune(d);
      EscapeNext(d);
      Regroup(buffer, Piece(r.value), Escape(d[r.size..]));
      if r.value < 128 {
        buffer := buffer + [r.value];
      } else {
        buffer := buffer + ([BACKSLASH, LETTER_U] + Hex(r.value));
      }
      d := d[r.size..];
    }
    EscapeAscii(text);
  }

  // ----- What escaping and reading back does to the next character

  lemma StartsLiterally(d: Bytes)
    requires Escape(d) != [] && Escape(d)[0] != BACKSLASH
    ensures d != [] && d[0] < 128 && Escape(d) == [d[0]] + Escape(d[1..])
  {
    EscapeNext(d);
    assert Escape(d)[0] == Piece(DecodeRune(d).value)[0];
  }

  lemma SameStart(d: Bytes, e: Bytes, next: Bytes, k: nat)
    requires d != [] && e == [d[0]] + next && 0 < k <= |e|
    requires k - 1 <= |d[1..]| && d[1..][..k - 1] == next[..k - 1]
    ensures k <= |d| && d[..k] == e[..k]
  {
    assert d[..k] == [d[0]] + d[1..][..k - 1];
    assert e[..k] == [d[0]] + next[..k - 1];
  }

  /** An escaped text begins with bytes other than the backslash only where the text does. */
  lemma {:induction false} LiteralStart(d: Bytes, k: nat)
    requires k <= |Escape(d)| && forall i :: 0 <= i < k ==> Escape(d)[i] != BACKSLASH
    ensures k <= |d| && d[..k] == Escape(d)[..k]
  {
    if k > 0 {
      StartsLiterally(d);
      var e, next := Escape(d), Escape(d[1..]);
      ShiftedPlain(e, next, k);
      LiteralStart(d[1..], k - 1);
      SameStart(d, e, next, k);
    }
  }

  lemma ShiftedPlain(e: Bytes, next: Bytes, k: nat)
    requires 0 < k <= |e| && e[1..] == next && forall i :: 0 <= i < k ==> e[i] != BACKSLASH
    ensures k - 1 <= |next| && forall i :: 0 <= i < k - 1 ==> next[i] != BACKSLASH
  {
    assert forall i :: 0 <= i < k - 1 ==> next[i] == e[i + 1];
  }

  /** ASCII goes through escaping unchanged. */
  lemma {:induction false} AsciiStart(d: Bytes, k: nat)
    requires k <= |d| && Ascii(d[..k])
    ensures Escape(d) == d[..k] + Escape(d[k..])
  {
    if k > 0 {
      assert d[..k][0] == d[0];
      EscapeLiteral(d);
      var first, middle := [d[0]], d[1..][..k - 1];
      assert middle == d[..k][1..] && d[..k] == first + middle;
      AsciiStart(d[1..], k - 1);
      assert d[1..][k - 1..] == d[k..];
      Regroup(first, middle, Escape(d[k..]));
    } else {
      assert d[0..] == d && d[..0] == [];
    }
  }

  function There(d: Bytes): Bytes { Unescape(Escape(d)) }

  /** An escape in the escaped text that begins with a literal backslash is one in the text. */
  lemma EscapeWasThere(d: Bytes)
    requires d != [] && d[0] < 128 && EscapeAt([d[0]] + Escape(d[1..]))
    ensures EscapeAt(d)
  {
    var e := Escape(d[1..]);
    assert forall i :: 0 <= i < 5 ==> e[i] == ([d[0]] + e)[i + 1];
    LiteralStart(d[1..], 5);
    assert forall i :: 0 <= i < 5 ==> d[i + 1] == d[1..][..5][i];
    assert d[1] == e[0] && d[2] == e[1] && d[3] == e[2] && d[4] == e[3] && d[5] == e[4];
  }

  lemma NextLiteral(d: Bytes)
    requires d != [] && d[0] < 128 && !EscapeAt(d)
    ensures There(d) == [d[0]] + There(d[1..])
  {
    var e := Escape(d[1..]);
    EscapeLiteral(d);
    if EscapeAt([d[0]] + e) {
      EscapeWasThere(d);
    } else {
      assert ([d[0]] + e)[1..] == e;
    }
  }

  lemma NextEscape(d: Bytes)
    requires EscapeAt(d)
    ensures There(d) == Meaning(Escaped(d)) + There(d[6..])
  {
    AsciiStart(d, 6);
    var s := d[..6] + Escape(d[6..]);
    assert s[..6] == d[..6] && s[6..] == Escape(d[6..]);
    assert s[2..6] == d[2..6];
  }

  lemma EscapeRead(v: nat, rest: Bytes)
    requires v < 0x10000
    ensures Unescape([BACKSLASH, LETTER_U] + Hex4(v) + rest) == Meaning(v) + Unescape(rest)
  {
    Value4Hex4(v);
    var s := [BACKSLASH, LETTER_U] + Hex4(v) + rest;
    assert s[2..6] == Hex4(v) && s[6..] == rest;
    assert s[2] == Hex4(v)[0] && s[3] == Hex4(v)[1] && s[4] == Hex4(v)[2] && s[5] == Hex4(v)[3];
  }

  lemma NextRune(d: Bytes)
    requires d != [] && d[0] >= 128 && DecodeRune(d).value < 0x10000
    ensures There(d) == Meaning(DecodeRune(d).value) + There(d[DecodeRune(d).size..])
  {
    var r := DecodeRune(d);
    var rest := Escape(d[r.size..]);
    assert Escape(d) == [BACKSLASH, LETTER_U] + Hex4(r.value) + rest;
    EscapeRead(r.value, rest);
  }

  /** Four digits with more behind them are read back as one character. */
  lemma LongEscapeRead(v: nat, more: Bytes, rest: Bytes)
    requires v < 0x10000
    ensures Unescape([BACKSLASH, LETTER_U] + (Hex4(v) + more) + rest) == Meaning(v) + Unescape(more + rest)
  {
    var s := [BACKSLASH, LETTER_U] + (Hex4(v) + more) + rest;
    assert s == [BACKSLASH, LETTER_U] + Hex4(v) + (more + rest);
    EscapeRead(v, more + rest);
  }

  /** A code point of five or six digits is read back as one of four. */
  lemma NextLongRune(d: Bytes)
    requires d != [] && DecodeRune(d).value >= 0x10000
    ensures There(d) != [] && 0xC2 <= There(d)[0] < 0xF0
  {
    var r := DecodeRune(d);
    var rest := Escape(d[r.size..]);
    EscapeNext(d);
    if r.value < 0x100000 {
      LongEscapeRead(r.value / 0x10, [Digit(r.value % 16)], rest);
    } else {
      LongEscapeRead(r.value / 0x100, [Digit(r.value / 0x10 % 16), Digit(r.value % 16)], rest);
    }
  }

  // ----- When reading back restores the text

  /** Every character is literal ASCII, not the start of an escape, or of at most four digits. */
  ghost predicate Clean(d: Bytes)
    decreases |d|
  {
    d != [] ==>
      var r := DecodeRune(d);
      && r != INVALID && r.value < 0x10000 && !EscapeAt(d)
      && Clean(d[r.size..])
  }

  lemma {:induction false} AsciiShrinks(d: Bytes)
    requires Ascii(d)
    ensures |There(d)| <= |d|
    decreases |d|
  {
    if EscapeAt(d) {
      NextEscape(d);
      AsciiShrinks(d[6..]);
    } else if d != [] {
      NextLiteral(d);
      AsciiShrinks(d[1..]);
    }
  }

  lemma NextForeign(d: Bytes)
    requires d != [] && d[0] >= 128
    ensures There(d) != [] && There(d)[0] >= 128
  {
    if DecodeRune(d).value < 0x10000 {
      NextRune(d);
    } else {
      NextLongRune(d);
    }
  }

  lemma EscapeIsAscii(d: Bytes, q: nat)
    requires EscapeAt(d) && q < |d| && d[q] >= 128
    ensures q >= 6
  {
    assert d[0] < 128 && d[1] < 128 && d[2] < 128 && d[3] < 128 && d[4] < 128 && d[5] < 128;
  }

  /** Going there and back moves the first byte outside ASCII to the left, if at all. */
  lemma {:induction false} FirstForeign(d: Bytes, q: nat) returns (j: nat)
    requires q < |d| && d[q] >= 128 && Ascii(d[..q])
    ensures j <= q && j < |There(d)| && There(d)[j] >= 128
  {
    if q == 0 {
      NextForeign(d);
      j := 0;
    } else {
      assert d[..q][0] == d[0];
      if EscapeAt(d) {
        EscapeIsAscii(d, q);
        assert d[6..][..q - 6] == d[..q][6..];
        j := FirstForeign(d[6..], q - 6);
        NextEscape(d);
        j := j + |Meaning(Escaped(d))|;
      } else {
        assert d[1..][..q - 1] == d[..q][1..];
        j := FirstForeign(d[1..], q - 1);
        NextLiteral(d);
        j := j + 1;
      }
    }
  }

  lemma {:induction false} FindForeign(d: Bytes) returns (q: nat)
    requires !Ascii(d)
    ensures q < |d| && d[q] >= 128 && Ascii(d[..q])
  {
    if d[0] >= 128 {
      q := 0;
    } else {
      q := FindForeign(d[1..]);
      assert d[..q + 1] == [d[0]] + d[1..][..q];
      q := q + 1;
    }
  }

  /** Nothing comes back with more ASCII in front of it. */
  lemma NoGain(a: Bytes, d: Bytes)
    requires a != [] && Ascii(a)
    ensures There(d) != a + d
  {
    if Ascii(d) {
      AsciiShrinks(d);
    } else {
      var q := FindForeign(d);
      var j := FirstForeign(d, q);
      assert j < |a| ==> (a + d)[j] == a[j];
      assert j >= |a| ==> (a + d)[j] == d[j - |a|] && d[j - |a|] == d[..q][j - |a|];
      assert (a + d)[j] < 128;
    }
  }

  /** A text that begins with an escape does not come back. */
  lemma EscapeLost(d: Bytes)
    requires EscapeAt(d)
    ensures There(d) != d
  {
    NextEscape(d);
    var v := Escaped(d);
    if v == BACKSLASH {
      assert Ascii(d[1..6]);
      NoGain(d[1..6], d[6..]);
      assert d[1..] == d[1..6] + d[6..];
      assert ([v] + There(d[6..]))[1..] == There(d[6..]);
    } else {
      assert There(d)[0] == Meaning(v)[0];
    }
  }

  /** An invalid byte does not come back. */
  lemma InvalidLost(d: Bytes)
    requires d != [] && DecodeRune(d) == INVALID
    ensures There(d) != d
  {
    NextRune(d);
    var mark := Meaning(REPLACEMENT);
    if There(d) == d {
      assert d[..|mark|] == mark;
      assert d == mark + d[|mark|..];
      DecodeUtf8(REPLACEMENT, d[|mark|..]);
    }
  }

  lemma CutBack(d: Bytes, n: nat, back: Bytes)
    requires n <= |d| && There(d) == d[..n] + back
    ensures There(d) == d <==> back == d[n..]
  {
    assert d == d[..n] + d[n..];
    assert There(d)[n..] == back;
  }

  lemma {:induction false} BackIfClean(d: Bytes)
    ensures There(d) == d <==> Clean(d)
    decreases |d|
  {
    if d == [] {
    } else if EscapeAt(d) {
      EscapeLost(d);
    } else if DecodeRune(d) == INVALID {
      InvalidLost(d);
    } else {
      var r := DecodeRune(d);
      Utf8Decode(d);
      if r.value >= 0x10000 {
        NextLongRune(d);
        assert d[..r.size][0] == d[0];
      } else {
        if d[0] < 128 {
          NextLiteral(d);
          assert d[..1] == [d[0]];
        } else {
          NextRune(d);
        }
        CutBack(d, r.size, There(d[r.size..]));
        BackIfClean(d[r.size..]);
      }
    }
  }

  // ----- The condition in terms of the text

  ghost predicate Basic(runes: seq<nat>) {
    forall i :: 0 <= i < |runes| ==> Scalar(runes[i]) && runes[i] < 0x10000
  }

  function EncodeAll(runes: seq<nat>): Bytes
    requires forall i :: 0 <= i < |runes| ==> Scalar(runes[i])
  {
    if runes == [] then [] else Utf8(runes[0]) + EncodeAll(runes[1..])
  }

  /** The text is the encoding of code points of the basic plane. */
  ghost predicate IsBasic(d: Bytes) {
    exists runes: seq<nat> :: Basic(runes) && EncodeAll(runes) == d
  }

  /** No escape stands in the text already. */
  ghost predicate NoEscape(d: Bytes) {
    forall i :: 0 <= i <= |d| ==> !EscapeAt(d[i..])
  }

  lemma Utf8Tail(r: nat, i: nat)
    requires Scalar(r) && 0 < i < |Utf8(r)|
    ensures Utf8(r)[i] >= 0x80
  {
  }

  lemma NoEscapeInside(d: Bytes, n: nat)
    requires n <= |d| && !EscapeAt(d) && forall i :: 0 < i < n ==> d[i] >= 0x80
    ensures NoEscape(d) <==> NoEscape(d[n..])
  {
    forall i | 0 <= i <= |d| - n ensures d[n..][i..] == d[n + i..] {
    }
    if NoEscape(d[n..]) {
      forall i | 0 <= i <= |d| ensures !EscapeAt(d[i..]) {
        if i == 0 {
          assert d[0..] == d;
        } else if i >= n {
          assert d[n..][i - n..] == d[i..];
        } else {
          assert d[i..][0] == d[i];
        }
      }
    }
  }

  /** A clean first character adds no escape to the rest. */
  lemma NoEscapeInRune(d: Bytes)
    requires d != [] && DecodeRune(d) != INVALID && !EscapeAt(d)
    ensures NoEscape(d) <==> NoEscape(d[DecodeRune(d).size..])
  {
    var r := DecodeRune(d);
    Utf8Decode(d);
    forall i | 0 < i < r.size ensures d[i] >= 0x80 {
      Utf8Tail(r.value, i);
      assert d[..r.size][i] == d[i];
    }
    NoEscapeInside(d, r.size);
  }

  lemma EncodedAgain(d: Bytes, rest: seq<nat>)
    requires d != [] && DecodeRune(d) != INVALID && Basic(rest)
    requires EncodeAll(rest) == d[DecodeRune(d).size..]
    ensures Scalar(DecodeRune(d).value) && EncodeAll([DecodeRune(d).value] + rest) == d
  {
    Utf8Decode(d);
    assert ([DecodeRune(d).value] + rest)[1..] == rest;
    assert d == d[..DecodeRune(d).size] + d[DecodeRune(d).size..];
  }

  lemma {:induction false} CleanIsBasic(d: Bytes) returns (runes: seq<nat>)
    requires Clean(d)
    ensures Basic(runes) && EncodeAll(runes) == d && NoEscape(d)
    decreases |d|
  {
    if d == [] {
      runes := [];
    } else {
      var r := DecodeRune(d);
      var rest := CleanIsBasic(d[r.size..]);
      NoEscapeInRune(d);
      EncodedAgain(d, rest);
      runes := [r.value] + rest;
    }
  }

  lemma {:induction false} BasicIsClean(runes: seq<nat>)
    requires Basic(runes) && NoEscape(EncodeAll(runes))
    ensures Clean(EncodeAll(runes))
  {
    if runes != [] {
      var d, rest := EncodeAll(runes), EncodeAll(runes[1..]);
      DecodeUtf8(runes[0], rest);
      assert d[0..] == d;
      var n := |Utf8(runes[0])|;
      assert d[n..] == rest;
      forall i | 0 < i < n ensures d[i] >= 0x80 {
        Utf8Tail(runes[0], i);
      }
      NoEscapeInside(d, n);
      BasicIsClean(runes[1..]);
      assert DecodeRune(d) != INVALID;
    }
  }

  /** Reading the escapes back restores the text if and only if it is valid, holds no code point
      beyond U+FFFF and no escape of its own. */
  lemma {:induction false} RestoredExactly(d: Bytes)
    ensures Unescape(Escape(d)) == d <==> IsBasic(d) && NoEscape(d)
  {
    BackIfClean(d);
    if Clean(d) {
      var runes := CleanIsBasic(d);
    }
    if IsBasic(d) && NoEscape(d) {
      var runes: seq<nat> :| Basic(runes) && EncodeAll(runes) == d;
      BasicIsClean(runes);
    }
  }

  /** A text without a backslash holds no escape. */
  lemma {:induction false} NoBackslashNoEscape(d: Bytes)
    requires BACKSLASH !in d
    ensures NoEscape(d)
  {
    forall i | 0 <= i <= |d| ensures !EscapeAt(d[i..]) {
      assert i < |d| ==> d[i..][0] in d;
    }
  }
}
