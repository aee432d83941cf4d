/**
 * Operations on the raw bytes of an HTTP header: `bytes.split()` on ASCII
 * whitespace, `bytes.lower()`, and the strict UTF-8 decoding `bytes.decode()`
 * performs (well-formed sequences of the Unicode Standard, table 3-7), with
 * the encoder that it inverts.
 */
module Bytes {
  import opened Common

  /** The bytes `bytes.split()` treats as whitespace: space, \t, \n, \v, \f, \r. */
  predicate IsSpace(b: byte) {
    b == 0x20 || b == 0x09 || b == 0x0A || b == 0x0B || b == 0x0C || b == 0x0D
  }

  /** The longest prefix of `b` without whitespace. */
  function Word(b: seq<byte>): (w: seq<byte>)
    ensures |w| <= |b| && w == b[..|w|]
    ensures forall i :: 0 <= i < |w| ==> !IsSpace(w[i])
    ensures |w| < |b| ==> IsSpace(b[|w|])
  {
    if |b| == 0 || IsSpace(b[0]) then [] else [b[0]] + Word(b[1..])
  }

  /** `bytes.split()`: the maximal runs of non-whitespace bytes, in order. */
  function Split(b: seq<byte>): (parts: seq<seq<byte>>)
    ensures forall k :: 0 <= k < |parts| ==> |parts[k]| > 0
    ensures forall k, i :: 0 <= k < |parts| && 0 <= i < |parts[k]| ==> !IsSpace(parts[k][i])
    decreases |b|
  {
    if |b| == 0 then []
    else if IsSpace(b[0]) then Split(b[1..])
    else
      var w := Word(b);
      [w] + Split(b[|w|..])
  }

  /** The parts laid end to end. */
  function Concat(parts: seq<seq<byte>>): seq<byte> {
    if |parts| == 0 then [] else parts[0] + Concat(parts[1..])
  }

  /** The bytes of `b` that are not whitespace. */
  function NonSpace(b: seq<byte>): seq<byte> {
    Filter(b, (x: byte) => !IsSpace(x))
  }

  /** Splitting loses only whitespace: the parts laid end to end are the non-whitespace bytes. */
  lemma {:induction false} SplitKeepsNonSpace(b: seq<byte>)
    ensures Concat(Split(b)) == NonSpace(b)
    decreases |b|
  {
    if |b| > 0 {
      if IsSpace(b[0]) {
        SplitKeepsNonSpace(b[1..]);
      } else {
        var w := Word(b);
        WordIsNonSpace(b);
        SplitKeepsNonSpace(b[|w|..]);
        assert Split(b)[1..] == Split(b[|w|..]);
        FilterAppend(w, b[|w|..], (x: byte) => !IsSpace(x));
        assert b == w + b[|w|..];
      }
    }
  }

  lemma {:induction false} WordIsNonSpace(b: seq<byte>)
    ensures NonSpace(Word(b)) == Word(b)
  {
    if |b| > 0 && !IsSpace(b[0]) {
      WordIsNonSpace(b[1..]);
      assert Word(b)[1..] == Word(b[1..]);
    }
  }

  /** Two words separated by a single space split back into exactly those two words. */
  lemma TwoWords(a: seq<byte>, c: seq<byte>)
    requires |a| > 0 && |c| > 0
    requires forall i :: 0 <= i < |a| ==> !IsSpace(a[i])
    requires forall i :: 0 <= i < |c| ==> !IsSpace(c[i])
    ensures Split(a + [0x20] + c) == [a, c]
  {
    var tail: seq<byte> := [0x20] + c;
    var b := a + tail;
    assert a + [0x20] + c == b;
    WordOfNonSpace(a, tail);
    assert b[|a|..] == tail;
    assert Split(b) == [a] + Split(tail);
    assert tail[1..] == c;
    assert Split(tail) == Split(c);
    WordOfNonSpace(c, []);
    assert c + [] == c;
    assert Split(c) == [c] + Split(c[|c|..]);
  }

  lemma {:induction false} WordOfNonSpace(a: seq<byte>, rest: seq<byte>)
    requires forall i :: 0 <= i < |a| ==> !IsSpace(a[i])
    requires |rest| == 0 || IsSpace(rest[0])
    ensures Word(a + rest) == a
  {
    if |a| > 0 {
      assert (a + rest)[1..] == a[1..] + rest;
      WordOfNonSpace(a[1..], rest);
    } else {
      assert a + rest == rest;
    }
  }

  /** `bytes.lower()`: ASCII upper-case letters become lower-case, every other byte is kept. */
  function LowerBytes(b: seq<byte>): (r: seq<byte>)
    ensures |r| == |b|
    ensures forall i :: 0 <= i < |b| ==> r[i] == if 0x41 <= b[i] <= 0x5A then b[i] + 0x20 else b[i]
  {
    if |b| == 0 then [] else [if 0x41 <= b[0] <= 0x5A then b[0] + 0x20 else b[0]] + LowerBytes(b[1..])
  }

  // ---------------------------------------------------------------------
  // UTF-8
  // ---------------------------------------------------------------------

  predicate IsContinuation(x: int) { 0x80 <= x <= 0xBF }

  /** A Unicode scalar value: a code point outside the surrogate range. */
  predicate IsScalar(cp: int) { 0 <= cp < 0xD800 || 0xE000 <= cp < 0x11_0000 }

  /**
   * The character at the front of `b` and the number of bytes it takes, when
   * `b` starts with a well-formed UTF-8 sequence; `None` otherwise.
   */
  function DecodeFirst(b: seq<byte>): (r: Option<(char, nat)>)
    requires |b| > 0
    ensures r.Some? ==> 1 <= r.value.1 <= 4 && r.value.1 <= |b|
  {
    var b0: int := b[0];
    if b0 < 0x80 then Some((b0 as char, 1))
    else if 0xC2 <= b0 <= 0xDF then
      if |b| < 2 || !IsContinuation(b[1]) then None
      else
        var cp := (b0 - 0xC0) * 64 + (b[1] - 0x80);
        assert 0x80 <= cp < 0x800;
        Some((cp as char, 2))
    else if 0xE0 <= b0 <= 0xEF then
      var lo := if b0 == 0xE0 then 0xA0 else 0x80;
      var hi := if b0 == 0xED then 0x9F else 0xBF;
      if |b| < 3 || !(lo <= b[1] <= hi) || !IsContinuation(b[2]) then None
      else
        var cp := ThreeByteValue(b0, b[1], b[2]);
        Some((cp as char, 3))
    else if 0xF0 <= b0 <= 0xF4 then
      var lo := if b0 == 0xF0 then 0x90 else 0x80;
      var hi := if b0 == 0xF4 then 0x8F else 0xBF;
      if |b| < 4 || !(lo <= b[1] <= hi) || !IsContinuation(b[2]) || !IsContinuation(b[3]) then None
      else
        var cp := FourByteValue(b0, b[1], b[2], b[3]);
        Some((cp as char, 4))
    else None
  }

  function ThreeByteValue(b0: int, b1: int, b2: int): (cp: int)
    requires 0xE0 <= b0 <= 0xEF && IsContinuation(b1) && IsContinuation(b2)
    requires b0 == 0xE0 ==> b1 >= 0xA0
    requires b0 == 0xED ==> b1 <= 0x9F
    ensures IsScalar(cp) && 0x800 <= cp < 0x1_0000
  {
    var hi := b0 - 0xE0;
    assert 0 <= hi < 16;
    var cp := hi * 4096 + (b1 - 0x80) * 64 + (b2 - 0x80);
    assert hi * 4096 <= cp < hi * 4096 + 4096;
    assert b0 == 0xED ==> cp < 0xD800;
    cp
  }

  function FourByteValue(b0: int, b1: int, b2: int, b3: int): (cp: int)
    requires 0xF0 <= b0 <= 0xF4 && IsContinuation(b1) && IsContinuation(b2) && IsContinuation(b3)
    requires b0 == 0xF0 ==> b1 >= 0x90
    requires b0 == 0xF4 ==> b1 <= 0x8F
    ensures IsScalar(cp) && 0x1_0000 <= cp
  {
    var hi := b0 - 0xF0;
    assert 0 <= hi <= 4;
    var cp := hi * 262144 + (b1 - 0x80) * 4096 + (b2 - 0x80) * 64 + (b3 - 0x80);
    assert hi * 262144 + (b1 - 0x80) * 4096 <= cp < hi * 262144 + (b1 - 0x80) * 4096 + 4096;
    cp
  }

  /** `b.decode()`: the string `b` encodes in UTF-8, or `None` where Python raises `UnicodeDecodeError`. */
  function Utf8Decode(b: seq<byte>): (r: Option<string>)
    decreases |b|
  {
    if |b| == 0 then Some("")
    else
      match DecodeFirst(b)
      case None => None
      case Some((c, n)) =>
        match Utf8Decode(b[n..])
        case None => None
        case Some(rest) => Some([c] + rest)
  }

  /** The UTF-8 encoding of one character: one to four bytes. */
  function EncodeChar(c: char): (r: seq<byte>)
    ensures 1 <= |r| <= 4
  {
    var cp := c as int;
    if cp < 0x80 then [cp]
    else if cp < 0x800 then [(0xC0 + cp / 64), (0x80 + cp % 64)]
    else if cp < 0x1_0000 then
      [(0xE0 + cp / 4096), (0x80 + cp / 64 % 64), (0x80 + cp % 64)]
    else
      [(0xF0 + cp / 262144), (0x80 + cp / 4096 % 64), (0x80 + cp / 64 % 64),
       (0x80 + cp % 64)]
  }

  /** `s.encode()`. */
  function Utf8Encode(s: string): (r: seq<byte>) {
    if |s| == 0 then [] else EncodeChar(s[0]) + Utf8Encode(s[1..])
  }

  /** Decoding reads the first character of an encoding back, whatever follows it. */
  lemma DecodeFirstOfEncoding(c: char, rest: seq<byte>)
    ensures DecodeFirst(EncodeChar(c) + rest) == Some((c, |EncodeChar(c)|))
  {
    var b := EncodeChar(c) + rest;
    var cp := c as int;
    if cp < 0x80 {
    } else if cp < 0x800 {
      assert b[0] == 0xC0 + cp / 64 && b[1] == 0x80 + cp % 64;
    } else if cp < 0x1_0000 {
      assert b[0] == 0xE0 + cp / 4096;
      assert b[1] == 0x80 + cp / 64 % 64;
      assert b[2] == 0x80 + cp % 64;
      ThreeDigits(cp);
    } else {
      assert b[0] == 0xF0 + cp / 262144;
      assert b[1] == 0x80 + cp / 4096 % 64;
      assert b[2] == 0x80 + cp / 64 % 64;
      assert b[3] == 0x80 + cp % 64;
      FourDigits(cp);
    }
  }

  lemma ThreeDigits(cp: int)
    requires 0x800 <= cp < 0x1_0000 && IsScalar(cp)
    ensures cp / 4096 * 4096 + cp / 64 % 64 * 64 + cp % 64 == cp
    ensures cp / 4096 == 0 ==> cp / 64 % 64 >= 0x20
    ensures cp / 4096 == 0xD ==> cp / 64 % 64 < 0x20
  {
    assert cp / 64 == cp / 4096 * 64 + cp / 64 % 64;
    assert cp == cp / 64 * 64 + cp % 64;
  }

  lemma FourDigits(cp: int)
    requires 0x1_0000 <= cp < 0x11_0000
    ensures cp / 262144 * 262144 + cp / 4096 % 64 * 4096 + cp / 64 % 64 * 64 + cp % 64 == cp
    ensures cp / 262144 <= 4
    ensures cp / 262144 == 0 ==> cp / 4096 % 64 >= 0x10
    ensures cp / 262144 == 4 ==> cp / 4096 % 64 < 0x10
  {
    assert cp / 4096 == cp / 262144 * 64 + cp / 4096 % 64;
    assert cp / 64 == cp / 4096 * 64 + cp / 64 % 64;
    assert cp == cp / 64 * 64 + cp % 64;
  }

  /** Decoding inverts encoding: every string survives the round trip. */
  lemma {:induction false} Utf8RoundTrip(s: string)
    ensures Utf8Decode(Utf8Encode(s)) == Some(s)
  {
    if |s| > 0 {
      var e := EncodeChar(s[0]);
      var rest := Utf8Encode(s[1..]);
      DecodeFirstOfEncoding(s[0], rest);
      assert (e + rest)[|e|..] == rest;
      Utf8RoundTrip(s[1..]);
      assert [s[0]] + s[1..] == s;
    }
  }
}
