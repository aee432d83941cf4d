/**
 * Shared vocabulary of the model: optional values, the dynamically typed
 * values that Python code stores in sessions and keyword dictionaries, the
 * first-match and filter operations that model `.filter(...).first()` and
 * `.filter(...).delete()` on a table kept in primary-key order, ASCII case
 * folding, substring search and decimal rendering of integers.
 */
module Common {

  datatype Option<+T> = None | Some(value: T)

  /** An octet of a byte string. */
  type byte = x: int | 0 <= x < 256

  /** A Python value as it appears in a session or a keyword dictionary. */
  datatype Value = VNone | VBool(b: bool) | VInt(i: int) | VStr(s: string)

  /** Python truthiness of a value. */
  predicate Truthy(v: Value) {
    match v
    case VNone => false
    case VBool(b) => b
    case VInt(i) => i != 0
    case VStr(s) => s != ""
  }

  /** Python `==` between a stored value and an integer (`True == 1`, `False == 0`). */
  predicate EqualsInt(v: Value, n: int) {
    match v
    case VInt(i) => i == n
    case VBool(b) => (b && n == 1) || (!b && n == 0)
    case _ => false
  }

  /**
   * What a lookup `filter(id=v)` on an integer key makes of a stored value:
   * `None` looks for a null key, which no row has; integers are used as
   * they are and booleans as 0 or 1; strings go through `int(...)`, and
   * one it refuses makes the lookup raise `ValueError`.
   */
  datatype KeyArg = NullKey | Key(id: int) | BadKey

  function KeyOf(v: Value): (r: KeyArg)
    ensures v.VNone? <==> r.NullKey?
    ensures v.VInt? ==> r == Key(v.i)
    ensures r.BadKey? <==> v.VStr? && PyInt(v.s).None?
    ensures v.VStr? && PyInt(v.s).Some? ==> r == Key(PyInt(v.s).value)
  {
    match v
    case VNone => NullKey
    case VBool(b) => Key(if b then 1 else 0)
    case VInt(i) => Key(i)
    case VStr(s) => if PyInt(s).Some? then Key(PyInt(s).value) else BadKey
  }

  /** The key `filter(id=v)` looks for, with a refused string treated like `None`. */
  function AsId(v: Value): (r: Option<int>)
    ensures v.VInt? ==> r == Some(v.i)
    ensures v.VNone? ==> r.None?
    ensures r.Some? <==> KeyOf(v).Key?
  {
    match KeyOf(v)
    case Key(id) => Some(id)
    case _ => None
  }

  /** `d.get(k)`: the value under `k`, or `None` when absent. */
  function Get(d: map<string, Value>, k: string): Value {
    if k in d then d[k] else VNone
  }

  // ---------------------------------------------------------------------
  // First match and filtering over a table in primary-key order
  // ---------------------------------------------------------------------

  /** Index of the first element satisfying `p`, as `.filter(p).first()` finds it. */
  function FirstIndex<T>(s: seq<T>, p: T -> bool): (r: Option<nat>)
    ensures r.Some? ==> r.value < |s| && p(s[r.value])
    ensures r.Some? ==> forall j :: 0 <= j < r.value ==> !p(s[j])
    ensures r.None? <==> forall j :: 0 <= j < |s| ==> !p(s[j])
  {
    if |s| == 0 then None
    else if p(s[0]) then Some(0)
    else
      match FirstIndex(s[1..], p)
      case None => None
      case Some(k) => Some(k + 1)
  }

  /** The first element satisfying `p`, or `None`. */
  function First<T>(s: seq<T>, p: T -> bool): (r: Option<T>)
    ensures r.Some? ==> r.value in s && p(r.value)
    ensures r.None? <==> forall j :: 0 <= j < |s| ==> !p(s[j])
  {
    match FirstIndex(s, p)
    case None => None
    case Some(i) => Some(s[i])
  }

  /** The elements satisfying `p`, in their original order. */
  function Filter<T>(s: seq<T>, p: T -> bool): (r: seq<T>)
    ensures |r| <= |s|
    ensures forall j :: 0 <= j < |r| ==> p(r[j])
  {
    if |s| == 0 then []
    else if p(s[0]) then [s[0]] + Filter(s[1..], p)
    else Filter(s[1..], p)
  }

  /** `Filter` keeps exactly the elements satisfying `p`. */
  lemma {:induction false} FilterMembers<T>(s: seq<T>, p: T -> bool)
    ensures forall j :: 0 <= j < |Filter(s, p)| ==> Filter(s, p)[j] in s
    ensures forall j :: 0 <= j < |s| && p(s[j]) ==> s[j] in Filter(s, p)
  {
    if |s| > 0 {
      FilterMembers(s[1..], p);
      var r := Filter(s, p);
      var rest := Filter(s[1..], p);
      if p(s[0]) {
        assert r == [s[0]] + rest;
        forall j | 0 <= j < |r| ensures r[j] in s {
          if j > 0 { assert r[j] == rest[j - 1]; }
        }
      }
      forall j | 0 <= j < |s| && p(s[j]) ensures s[j] in r {
        if j > 0 { assert s[j] == s[1..][j - 1]; }
      }
    }
  }

  /** Filtering a concatenation filters each part. */
  lemma {:induction false} FilterAppend<T>(s: seq<T>, t: seq<T>, p: T -> bool)
    ensures Filter(s + t, p) == Filter(s, p) + Filter(t, p)
  {
    if |s| > 0 {
      assert (s + t)[1..] == s[1..] + t;
      FilterAppend(s[1..], t, p);
    } else {
      assert s + t == t;
    }
  }

  /** Filtering keeps a sequence whose every element satisfies `p`. */
  lemma {:induction false} FilterKeepsAll<T>(s: seq<T>, p: T -> bool)
    requires forall j :: 0 <= j < |s| ==> p(s[j])
    ensures Filter(s, p) == s
  {
    if |s| > 0 {
      FilterKeepsAll(s[1..], p);
      assert s == [s[0]] + s[1..];
    }
  }

  /** Every earlier element of `s` stands in relation `R` to every later one. */
  predicate Pairwise<T>(s: seq<T>, R: (T, T) -> bool) {
    forall i, j :: 0 <= i < j < |s| ==> R(s[i], s[j])
  }

  /** Dropping rows keeps a relation that held between every earlier and later row. */
  lemma {:induction false} FilterPairwise<T>(s: seq<T>, p: T -> bool, R: (T, T) -> bool)
    requires Pairwise(s, R)
    ensures Pairwise(Filter(s, p), R)
  {
    if |s| > 0 {
      var rest := Filter(s[1..], p);
      assert Pairwise(s[1..], R);
      FilterPairwise(s[1..], p, R);
      FilterMembers(s[1..], p);
      if p(s[0]) {
        var r := Filter(s, p);
        assert r == [s[0]] + rest;
        forall i, j | 0 <= i < j < |r|
          ensures R(r[i], r[j])
        {
          if i == 0 {
            var k :| 0 <= k < |s[1..]| && s[1..][k] == r[j];
            assert s[k + 1] == r[j];
          } else {
            assert r[i] == rest[i - 1] && r[j] == rest[j - 1];
          }
        }
      }
    }
  }

  /** Appending a row related to every existing one keeps a pairwise relation. */
  lemma AppendPairwise<T>(s: seq<T>, x: T, R: (T, T) -> bool)
    requires Pairwise(s, R)
    requires forall i :: 0 <= i < |s| ==> R(s[i], x)
    ensures Pairwise(s + [x], R)
  {
  }

  /** `r` is obtained from `s` by dropping elements, keeping the order of the rest. */
  ghost predicate Subsequence<T>(r: seq<T>, s: seq<T>)
    decreases |s|
  {
    if |r| == 0 then true
    else if |s| == 0 then false
    else if r[0] == s[0] then Subsequence(r[1..], s[1..])
    else Subsequence(r, s[1..])
  }

  lemma {:induction false} FilterIsSubsequence<T>(s: seq<T>, p: T -> bool)
    ensures Subsequence(Filter(s, p), s)
  {
    if |s| > 0 {
      FilterIsSubsequence(s[1..], p);
      if p(s[0]) {
        assert Filter(s, p) == [s[0]] + Filter(s[1..], p);
        assert (Filter(s, p))[1..] == Filter(s[1..], p);
      } else {
        SubsequenceDropFront(Filter(s, p), s);
      }
    }
  }

  lemma SubsequenceDropFront<T>(r: seq<T>, s: seq<T>)
    requires |s| > 0 && Subsequence(r, s[1..])
    ensures Subsequence(r, s)
    decreases |s|, 0
  {
    if |r| > 0 && r[0] == s[0] {
      assert Subsequence(r[1..], s[1..]) by {
        SubsequenceTail(r, s[1..]);
      }
    }
  }

  lemma SubsequenceTail<T>(r: seq<T>, s: seq<T>)
    requires |r| > 0 && Subsequence(r, s)
    ensures Subsequence(r[1..], s)
    decreases |s|, 1
  {
    if r[0] == s[0] {
      if |s| > 1 && |r| > 1 {
        SubsequenceDropFront(r[1..], s);
      } else if |r| > 1 {
        assert false;
      }
    } else {
      SubsequenceTail(r, s[1..]);
      SubsequenceDropFront(r[1..], s);
    }
  }

  // ---------------------------------------------------------------------
  // Strings
  // ---------------------------------------------------------------------

  /** ASCII lower-casing of one character. */
  function LowerChar(c: char): (r: char)
    ensures 'A' <= c <= 'Z' ==> 'a' <= r <= 'z'
    ensures !('A' <= c <= 'Z') ==> r == c
  {
    if 'A' <= c <= 'Z' then (c as int + 32) as char else c
  }

  /** `s.lower()` restricted to ASCII letters. */
  function Lower(s: string): (r: string)
    ensures |r| == |s|
    ensures forall i :: 0 <= i < |s| ==> r[i] == LowerChar(s[i])
  {
    if |s| == 0 then "" else [LowerChar(s[0])] + Lower(s[1..])
  }

  /** `needle` occurs at position `i` of `hay`. */
  predicate OccursAt(needle: string, hay: string, i: nat) {
    i + |needle| <= |hay| && hay[i..i + |needle|] == needle
  }

  /** Python's `needle in hay` for strings, by scanning positions. */
  function Contains(needle: string, hay: string): (r: bool)
    ensures r <==> exists i: nat :: OccursAt(needle, hay, i)
    decreases |hay|
  {
    if |needle| <= |hay| && hay[..|needle|] == needle then
      assert OccursAt(needle, hay, 0);
      true
    else if |hay| == 0 then
      assert forall i: nat :: !OccursAt(needle, hay, i);
      false
    else
      var rest := Contains(needle, hay[1..]);
      if rest then
        var i: nat :| OccursAt(needle, hay[1..], i);
        assert hay[1..][i..i + |needle|] == hay[i + 1..i + 1 + |needle|];
        assert OccursAt(needle, hay, i + 1);
        true
      else
        assert forall i: nat :: OccursAt(needle, hay, i) ==> i > 0 && OccursAt(needle, hay[1..], i - 1) by {
          forall i: nat | OccursAt(needle, hay, i)
            ensures i > 0 && OccursAt(needle, hay[1..], i - 1)
          {
            if i > 0 { assert hay[1..][i - 1..i - 1 + |needle|] == hay[i..i + |needle|]; }
          }
        }
        false
  }

  /** The text after the last `c` of `s` (all of `s` when it has none). */
  function AfterLast(c: char, s: string): (r: string)
    ensures |r| <= |s| && c !in r
  {
    if |s| == 0 then ""
    else if s[|s| - 1] == c then ""
    else AfterLast(c, s[..|s| - 1]) + [s[|s| - 1]]
  }

  lemma {:induction false} AfterLastOfSuffix(c: char, p: string, t: string)
    requires c !in t
    ensures AfterLast(c, p + [c] + t) == t
    decreases |t|
  {
    var s := p + [c] + t;
    if |t| > 0 {
      var t' := t[..|t| - 1];
      assert s[..|s| - 1] == p + [c] + t';
      AfterLastOfSuffix(c, p, t');
      assert t == t' + [t[|t| - 1]];
    } else {
      assert s[|s| - 1] == c;
    }
  }

  // ---------------------------------------------------------------------
  // Decimal rendering of integers (`'{}'.format(n)` and `int(s)`)
  // ---------------------------------------------------------------------

  predicate IsDigit(c: char) { '0' <= c <= '9' }

  function DigitChar(d: nat): (c: char)
    requires d < 10
    ensures IsDigit(c) && c as int - '0' as int == d
  {
    ('0' as int + d) as char
  }

  /** Decimal digits of a natural number, without leading zeros. */
  function NatToString(n: nat): (s: string)
    ensures |s| > 0 && forall i :: 0 <= i < |s| ==> IsDigit(s[i])
    decreases n
  {
    if n < 10 then [DigitChar(n)] else NatToString(n / 10) + [DigitChar(n % 10)]
  }

  /** Python's `str(n)` for an integer. */
  function IntToString(n: int): (s: string)
    ensures |s| > 0
    ensures n >= 0 ==> forall i :: 0 <= i < |s| ==> IsDigit(s[i])
    ensures n < 0 ==> s[0] == '-'
  {
    if n < 0 then "-" + NatToString(-n) else NatToString(n)
  }

  function DigitValue(c: char): (d: nat)
    requires IsDigit(c)
    ensures d < 10
  {
    (c as int - '0' as int) as nat
  }

  /** Value of a non-empty string of decimal digits. */
  function DigitsValue(s: string): nat
    requires |s| > 0 && forall i :: 0 <= i < |s| ==> IsDigit(s[i])
  {
    var d := DigitValue(s[|s| - 1]);
    if |s| == 1 then d else DigitsValue(s[..|s| - 1]) * 10 + d
  }

  /** `int(s)` for an optionally signed string of decimal digits; anything else is `None`. */
  function ParseInt(s: string): (r: Option<int>)
    ensures r.Some? ==> |s| > 0
  {
    if |s| > 0 && s[0] == '-' then
      var t := s[1..];
      if |t| > 0 && forall i :: 0 <= i < |t| ==> IsDigit(t[i]) then Some(-(DigitsValue(t) as int)) else None
    else if |s| > 0 && forall i :: 0 <= i < |s| ==> IsDigit(s[i]) then Some(DigitsValue(s) as int)
    else None
  }

  lemma {:induction false} NatToStringValue(n: nat)
    ensures DigitsValue(NatToString(n)) == n
    decreases n
  {
    if n >= 10 {
      var s := NatToString(n);
      assert s[..|s| - 1] == NatToString(n / 10);
      NatToStringValue(n / 10);
    }
  }

  /** Rendering an integer and reading it back gives the same integer. */
  lemma IntToStringRoundTrip(n: int)
    ensures ParseInt(IntToString(n)) == Some(n)
  {
    if n < 0 {
      NatToStringValue(-n);
      assert IntToString(n)[1..] == NatToString(-n);
    } else {
      NatToStringValue(n);
    }
  }

  /** Different integers render differently. */
  lemma IntToStringInjective(m: int, n: int)
    requires IntToString(m) == IntToString(n)
    ensures m == n
  {
    IntToStringRoundTrip(m);
    IntToStringRoundTrip(n);
  }

  // ---------------------------------------------------------------------
  // `str.strip()` and `int(s)` as Python reads text
  // ---------------------------------------------------------------------

  /** `c.isspace()`: the characters Python's `str.strip()` removes by default. */
  predicate IsSpaceChar(c: char) {
    || 9 <= c as int <= 13 || 28 <= c as int <= 32
    || c as int == 0x85 || c as int == 0xA0 || c as int == 0x1680
    || 0x2000 <= c as int <= 0x200A || c as int == 0x2028 || c as int == 0x2029
    || c as int == 0x202F || c as int == 0x205F || c as int == 0x3000
  }

  /** `s.lstrip()`: the suffix of `s` that starts at its first non-space character. */
  function LStrip(s: string): (r: string)
    ensures |r| <= |s| && r == s[|s| - |r|..]
    ensures forall i :: 0 <= i < |s| - |r| ==> IsSpaceChar(s[i])
    ensures |r| > 0 ==> !IsSpaceChar(r[0])
  {
    if |s| > 0 && IsSpaceChar(s[0]) then
      var r := LStrip(s[1..]);
      assert s[1..][|s| - 1 - |r|..] == s[|s| - |r|..];
      assert forall i :: 0 <= i < |s| - |r| ==> IsSpaceChar(s[i]) by {
        forall i | 0 < i < |s| - |r|
          ensures IsSpaceChar(s[i])
        {
          assert s[i] == s[1..][i - 1];
        }
      }
      r
    else s
  }

  /** `s.rstrip()`: the prefix of `s` that ends at its last non-space character. */
  function RStrip(s: string): (r: string)
    ensures |r| <= |s| && r == s[..|r|]
    ensures forall i :: |r| <= i < |s| ==> IsSpaceChar(s[i])
    ensures |r| > 0 ==> !IsSpaceChar(r[|r| - 1])
  {
    if |s| > 0 && IsSpaceChar(s[|s| - 1]) then
      var r := RStrip(s[..|s| - 1]);
      assert s[..|s| - 1][..|r|] == s[..|r|];
      r
    else s
  }

  /**
   * `s.strip()`: the slice of `s` between its leading and its trailing
   * whitespace; it neither starts nor ends with a space.
   */
  function Strip(s: string): (r: string)
    ensures |r| <= |s|
    ensures r == "" || (!IsSpaceChar(r[0]) && !IsSpaceChar(r[|r| - 1]))
  {
    var l := LStrip(s);
    var r := RStrip(l);
    assert r != "" ==> r[0] == l[0];
    r
  }

  /** `strip()` keeps the slice of `s` that lies between leading and trailing whitespace. */
  lemma StripIsSlice(s: string)
    ensures var lo := |s| - |LStrip(s)|;
            && lo + |Strip(s)| <= |s| && Strip(s) == s[lo..lo + |Strip(s)|]
            && (forall i :: 0 <= i < lo ==> IsSpaceChar(s[i]))
            && (forall i :: lo + |Strip(s)| <= i < |s| ==> IsSpaceChar(s[i]))
  {
    var l := LStrip(s);
    var r := RStrip(l);
    var lo := |s| - |l|;
    assert l == s[lo..];
    assert r == l[..|r|];
    StripSlice(s, l, r, lo);
  }

  lemma StripSlice(s: string, l: string, r: string, lo: nat)
    requires lo <= |s| && l == s[lo..] && |r| <= |l| && r == l[..|r|]
    requires forall i :: |r| <= i < |l| ==> IsSpaceChar(l[i])
    ensures r == s[lo..lo + |r|]
    ensures forall i :: lo + |r| <= i < |s| ==> IsSpaceChar(s[i])
  {
    forall i | lo + |r| <= i < |s|
      ensures IsSpaceChar(s[i])
    {
      assert s[i] == l[i - lo];
    }
  }

  /** Stripping twice strips nothing more. */
  lemma StripIdempotent(s: string)
    ensures Strip(Strip(s)) == Strip(s)
  {
    var t := Strip(s);
    if t != "" {
      assert LStrip(t) == t;
      assert RStrip(t) == t;
    }
  }

  lemma {:induction false} LStripSpaces(a: string, x: string)
    requires forall i :: 0 <= i < |a| ==> IsSpaceChar(a[i])
    ensures LStrip(a + x) == LStrip(x)
  {
    if |a| > 0 {
      assert (a + x)[0] == a[0];
      assert (a + x)[1..] == a[1..] + x;
      LStripSpaces(a[1..], x);
    } else {
      assert a + x == x;
    }
  }

  lemma {:induction false} RStripSpaces(x: string, b: string)
    requires forall i :: 0 <= i < |b| ==> IsSpaceChar(b[i])
    ensures RStrip(x + b) == RStrip(x)
  {
    if |b| > 0 {
      assert (x + b)[|x + b| - 1] == b[|b| - 1];
      assert (x + b)[..|x + b| - 1] == x + b[..|b| - 1];
      RStripSpaces(x, b[..|b| - 1]);
    } else {
      assert x + b == x;
    }
  }

  lemma {:induction false} LStripAppend(s: string, b: string)
    requires LStrip(s) != ""
    ensures LStrip(s + b) == LStrip(s) + b
  {
    if IsSpaceChar(s[0]) {
      assert (s + b)[1..] == s[1..] + b;
      LStripAppend(s[1..], b);
    }
  }

  /** Whitespace around a text does not change what `strip()` keeps of it. */
  lemma StripPadding(a: string, s: string, b: string)
    requires forall i :: 0 <= i < |a| ==> IsSpaceChar(a[i])
    requires forall i :: 0 <= i < |b| ==> IsSpaceChar(b[i])
    ensures Strip(a + s + b) == Strip(s)
  {
    assert a + s + b == a + (s + b);
    LStripSpaces(a, s + b);
    if LStrip(s) != "" {
      LStripAppend(s, b);
      RStripSpaces(LStrip(s), b);
    } else {
      LStripSpaces(s, b);
      assert LStrip(b) == "";
    }
  }

  /** The digits of `s` with the underscores between them dropped. */
  function WithoutUnderscores(s: string): (r: string)
    ensures forall c :: c in r ==> c in s && c != '_'
    ensures |s| > 0 && s[0] != '_' ==> |r| > 0
  {
    if |s| == 0 then "" else (if s[0] == '_' then "" else [s[0]]) + WithoutUnderscores(s[1..])
  }

  lemma {:induction false} WithoutUnderscoresOfDigits(s: string)
    requires forall i :: 0 <= i < |s| ==> IsDigit(s[i])
    ensures WithoutUnderscores(s) == s
  {
    if |s| > 0 {
      WithoutUnderscoresOfDigits(s[1..]);
    }
  }

  /**
   * The unsigned part `int(s)` accepts: ASCII digits in groups joined by
   * single underscores, with a digit at both ends; its value ignores the
   * underscores.
   */
  function GroupedDigits(s: string): (r: Option<nat>)
    ensures r.Some? ==> |s| > 0 && IsDigit(s[0]) && IsDigit(s[|s| - 1])
    ensures r.Some? ==> forall i :: 0 <= i < |s| ==> IsDigit(s[i]) || s[i] == '_'
  {
    if && |s| > 0 && IsDigit(s[0]) && IsDigit(s[|s| - 1])
       && (forall i :: 0 <= i < |s| ==> IsDigit(s[i]) || s[i] == '_')
       && (forall i :: 0 <= i < |s| - 1 && s[i] == '_' ==> s[i + 1] != '_')
    then
      var d := WithoutUnderscores(s);
      assert forall i :: 0 <= i < |d| ==> IsDigit(d[i]) by {
        forall i | 0 <= i < |d| ensures IsDigit(d[i]) {
          assert d[i] in s;
        }
      }
      Some(DigitsValue(d))
    else None
  }

  /**
   * What `int()` reads in a text that has already been stripped: an
   * optional `+` or `-`, then grouped digits. A number ends in a digit.
   */
  function SignedGroupedDigits(t: string): (r: Option<int>)
    ensures r.Some? ==> |t| > 0 && IsDigit(t[|t| - 1])
  {
    if |t| > 0 && (t[0] == '-' || t[0] == '+') then
      match GroupedDigits(t[1..])
      case Some(n) => Some(if t[0] == '-' then -(n as int) else n as int)
      case None => None
    else
      match GroupedDigits(t)
      case Some(n) => Some(n as int)
      case None => None
  }

  /**
   * `int(s)` for a string in base 10: surrounding whitespace, an optional
   * `+` or `-`, then grouped ASCII digits; `None` stands for the
   * `ValueError` raised on anything else. A number needs at least one digit.
   */
  function PyInt(s: string): (r: Option<int>)
    ensures r.Some? ==> exists i :: 0 <= i < |s| && IsDigit(s[i])
  {
    var t := Strip(s);
    var r := SignedGroupedDigits(t);
    if r.Some? then
      StripIsSlice(s);
      assert t[|t| - 1] == s[|s| - |LStrip(s)| + |t| - 1];
      r
    else r
  }

  /** A text that neither starts nor ends with whitespace is its own `strip()`. */
  lemma StripOfTrimmed(s: string)
    requires s != "" && !IsSpaceChar(s[0]) && !IsSpaceChar(s[|s| - 1])
    ensures Strip(s) == s
  {
    assert LStrip(s) == s;
    assert RStrip(s) == s;
  }

  lemma SignedExtendsParseInt(s: string)
    requires ParseInt(s).Some?
    ensures SignedGroupedDigits(s) == ParseInt(s)
  {
    if s[0] == '-' {
      var t := s[1..];
      WithoutUnderscoresOfDigits(t);
      assert GroupedDigits(t) == Some(DigitsValue(t));
    } else {
      WithoutUnderscoresOfDigits(s);
      assert GroupedDigits(s) == Some(DigitsValue(s));
    }
  }

  /** `int(s)` reads every strict decimal text the same way `ParseInt` does. */
  lemma PyIntExtendsParseInt(s: string)
    requires ParseInt(s).Some?
    ensures PyInt(s) == ParseInt(s)
  {
    assert IsDigit(s[|s| - 1]);
    StripOfTrimmed(s);
    SignedExtendsParseInt(s);
  }

  /** `int(str(n)) == n`. */
  lemma PyIntOfIntToString(n: int)
    ensures PyInt(IntToString(n)) == Some(n)
  {
    IntToStringRoundTrip(n);
    PyIntExtendsParseInt(IntToString(n));
  }

  /** A primary key stored as its text (`str(user.pk)`) is read back as that key. */
  lemma AsIdOfIntToString(n: int)
    ensures AsId(VStr(IntToString(n))) == Some(n)
  {
    PyIntOfIntToString(n);
  }

  lemma SignedRejectsOtherCharacters(t: string, j: nat)
    requires j < |t| && !IsDigit(t[j]) && t[j] !in {'_', '-', '+'}
    ensures SignedGroupedDigits(t).None?
  {
    if t[0] == '-' || t[0] == '+' {
      assert t[1..][j - 1] == t[j];
    }
  }

  /**
   * A character that is neither a digit, whitespace, a sign nor an
   * underscore makes `int(s)` raise, wherever it stands (`int('abc')`).
   */
  lemma PyIntRejectsOtherCharacters(s: string, i: nat)
    requires i < |s| && !IsDigit(s[i]) && !IsSpaceChar(s[i]) && s[i] !in {'_', '-', '+'}
    ensures PyInt(s).None?
  {
    var lo := StripKeepsNonSpace(s, i);
    SignedRejectsOtherCharacters(Strip(s), i - lo);
  }

  /** A character that is not whitespace survives `strip()`, at its place less the leading whitespace. */
  lemma StripKeepsNonSpace(s: string, i: nat) returns (lo: nat)
    requires i < |s| && !IsSpaceChar(s[i])
    ensures lo == |s| - |LStrip(s)| && lo <= i < lo + |Strip(s)| && Strip(s)[i - lo] == s[i]
  {
    lo := |s| - |LStrip(s)|;
    StripIsSlice(s);
    assert lo <= i < lo + |Strip(s)|;
  }

  // ---------------------------------------------------------------------
  // Order of text keys
  // ---------------------------------------------------------------------

  /** Lexicographic order of strings by code point: `a` sorts strictly before `b`. */
  predicate StrLess(a: string, b: string)
    decreases |a|
  {
    |b| > 0 && (|a| == 0 || a[0] < b[0] || (a[0] == b[0] && StrLess(a[1..], b[1..])))
  }

  lemma {:induction false} StrLessIrreflexive(a: string)
    ensures !StrLess(a, a)
  {
    if |a| > 0 {
      StrLessIrreflexive(a[1..]);
    }
  }

  lemma {:induction false} StrLessTransitive(a: string, b: string, c: string)
    requires StrLess(a, b) && StrLess(b, c)
    ensures StrLess(a, c)
  {
    if |a| > 0 && a[0] == b[0] && b[0] == c[0] {
      StrLessTransitive(a[1..], b[1..], c[1..]);
    }
  }

  /** Two different strings are ordered one way or the other. */
  lemma {:induction false} StrLessTotal(a: string, b: string)
    requires a != b
    ensures StrLess(a, b) || StrLess(b, a)
  {
    if |a| > 0 && |b| > 0 && a[0] == b[0] {
      assert a == [a[0]] + a[1..] && b == [b[0]] + b[1..];
      StrLessTotal(a[1..], b[1..]);
    }
  }
}
