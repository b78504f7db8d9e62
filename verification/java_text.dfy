/** The handful of `java.lang.String`, `Integer` and commons-lang `StringUtils` operations the
    mojo relies on, stated over Dafny strings (one `char` per Unicode scalar value). */
module JavaText {
  import opened Results

  const MinInt: int := -0x8000_0000
  const MaxInt: int := 0x7FFF_FFFF

  // ---------------------------------------------------------------- String.trim

  /** `String.trim` strips every character at or below U+0020, control characters included. */
  predicate TrimSpace(c: char) {
    c <= ' '
  }

  /** The index of the first character of `s` that is not a trim-space (`|s|` if none). */
  function TrimFrom(s: string): (lo: nat)
    ensures lo <= |s|
    ensures forall k :: 0 <= k < lo ==> TrimSpace(s[k])
    ensures lo < |s| ==> !TrimSpace(s[lo])
  {
    if s == [] || !TrimSpace(s[0]) then 0 else 1 + TrimFrom(s[1..])
  }

  /** One past the last character of `s[..hi]` at or after `lo` that is not a trim-space
      (`lo` if none). */
  function TrimTo(s: string, lo: nat, hi: nat): (e: nat)
    requires lo <= hi <= |s|
    ensures lo <= e <= hi
    ensures forall k :: e <= k < hi ==> TrimSpace(s[k])
    ensures e > lo ==> !TrimSpace(s[e - 1])
    decreases hi
  {
    if hi > lo && TrimSpace(s[hi - 1]) then TrimTo(s, lo, hi - 1) else hi
  }

  /** `String.trim`: the infix of `s` left after cutting trim-spaces off both ends. */
  function Trim(s: string): (r: string)
    ensures r == [] <==> forall k :: 0 <= k < |s| ==> TrimSpace(s[k])
    ensures r != [] ==> !TrimSpace(r[0]) && !TrimSpace(r[|r| - 1])
    ensures exists lo :: CutAt(s, lo, r)
  {
    var lo := TrimFrom(s);
    var hi := TrimTo(s, lo, |s|);
    assert CutAt(s, lo, s[lo..hi]);
    s[lo..hi]
  }

  /** `r` is the infix of `s` starting at `lo`, and everything around it is trim-space. */
  ghost predicate CutAt(s: string, lo: int, r: string) {
    && 0 <= lo <= |s| - |r| && r == s[lo..lo + |r|]
    && (forall k :: 0 <= k < lo ==> TrimSpace(s[k]))
    && (forall k :: lo + |r| <= k < |s| ==> TrimSpace(s[k]))
  }

  // ---------------------------------------------------------------- StringUtils

  /** `StringUtils.isEmpty`: null or of length zero. */
  predicate IsEmpty(s: Option<string>) {
    s.None? || s.value == []
  }

  /** `Character.isWhitespace` (Java 8 table): the ASCII controls U+0009..U+000D and
      U+001C..U+001F, the space, and the Unicode space, line and paragraph separators
      except the three non-breaking ones (U+00A0, U+2007, U+202F). */
  predicate JavaWhitespace(c: char) {
    || ('\t' <= c <= '\r')
    || ('\U{1C}' <= c <= ' ')
    || c == '\U{1680}' || c == '\U{180E}'
    || ('\U{2000}' <= c <= '\U{2006}') || ('\U{2008}' <= c <= '\U{200A}')
    || c == '\U{2028}' || c == '\U{2029}' || c == '\U{205F}' || c == '\U{3000}'
  }

  /** `StringUtils.isBlank`: null, empty, or whitespace only. */
  predicate IsBlank(s: Option<string>): (b: bool)
    ensures IsEmpty(s) ==> b
    ensures s.Some? && s.value != [] && !JavaWhitespace(s.value[0]) ==> !b
    ensures s.Some? && s.value != [] && !JavaWhitespace(s.value[|s.value| - 1]) ==> !b
    ensures s.Some? && |s.value| == 1 ==> (b <==> JavaWhitespace(s.value[0]))
  {
    s.None? || forall k :: 0 <= k < |s.value| ==> JavaWhitespace(s.value[k])
  }

  /** A concatenation is blank exactly when both parts are, so with the one-character case
      this fixes blankness for every string. */
  lemma {:induction false} BlankConcat(x: string, y: string)
    ensures IsBlank(Some(x + y)) <==> IsBlank(Some(x)) && IsBlank(Some(y))
  {
    if IsBlank(Some(x + y)) {
      forall k | 0 <= k < |y| ensures JavaWhitespace(y[k]) {
        assert y[k] == (x + y)[|x| + k];
      }
      forall k | 0 <= k < |x| ensures JavaWhitespace(x[k]) {
        assert x[k] == (x + y)[k];
      }
    }
  }

  // ---------------------------------------------------------------- case and suffix

  /** `Character.toUpperCase` restricted to ASCII letters; every other character is kept. */
  function UpperChar(c: char): char {
    if 'a' <= c <= 'z' then (c as int - 'a' as int + 'A' as int) as char else c
  }

  /** `String.toUpperCase` over the ASCII letters. */
  function UpperAscii(s: string): (r: string)
    ensures |r| == |s|
    ensures forall k :: 0 <= k < |s| ==> r[k] == UpperChar(s[k])
  {
    seq(|s|, k requires 0 <= k < |s| => UpperChar(s[k]))
  }

  /** `String.endsWith`. */
  predicate EndsWith(s: string, suffix: string) {
    |suffix| <= |s| && s[|s| - |suffix|..] == suffix
  }

  // ---------------------------------------------------------------- String.compareTo

  /** `String.compareTo`: the difference of the first pair of differing characters, or of the
      lengths when one string is a prefix of the other. */
  function CompareTo(a: string, b: string): (r: int)
    ensures r == 0 <==> a == b
    ensures |a| <= |b| && a == b[..|a|] ==> r == |a| - |b|
    ensures |b| <= |a| && b == a[..|b|] ==> r == |a| - |b|
  {
    if a == [] || b == [] then |a| - |b|
    else if a[0] != b[0] then a[0] as int - b[0] as int
    else
      assert a == a[..1] + a[1..] && b == b[..1] + b[1..];
      CompareTo(a[1..], b[1..])
  }

  /** Past a common prefix, the first pair of differing characters decides the comparison. */
  lemma {:induction false} CompareToFirstDifference(a: string, b: string, k: nat)
    requires k < |a| && k < |b| && a[..k] == b[..k] && a[k] != b[k]
    ensures CompareTo(a, b) == a[k] as int - b[k] as int
  {
    if k > 0 {
      assert a[0] == a[..k][0] == b[..k][0] == b[0];
      assert a[1..][..k - 1] == a[..k][1..] == b[..k][1..] == b[1..][..k - 1];
      CompareToFirstDifference(a[1..], b[1..], k - 1);
    }
  }

  /** Swapping the arguments negates the result (the `Comparable` sign contract). */
  lemma {:induction false} CompareToAntisymmetric(a: string, b: string)
    ensures CompareTo(a, b) == -CompareTo(b, a)
  {
    if a != [] && b != [] && a[0] == b[0] {
      CompareToAntisymmetric(a[1..], b[1..]);
    }
  }

  /** The result is zero exactly for equal strings. */
  lemma {:induction false} CompareToZero(a: string, b: string)
    ensures CompareTo(a, b) == 0 <==> a == b
  {
    if a != [] && b != [] && a[0] == b[0] {
      CompareToZero(a[1..], b[1..]);
      assert a == [a[0]] + a[1..] && b == [b[0]] + b[1..];
    }
  }

  /** "Not after" is transitive, so sorting by `compareTo` is well defined. */
  lemma {:induction false} CompareToTransitive(a: string, b: string, c: string)
    requires CompareTo(a, b) <= 0 && CompareTo(b, c) <= 0
    ensures CompareTo(a, c) <= 0
  {
    if a != [] && b != [] && c != [] && a[0] == b[0] && b[0] == c[0] {
      CompareToTransitive(a[1..], b[1..], c[1..]);
    }
  }

  // ---------------------------------------------------------------- Integer.parseInt

  predicate IsDigit(c: char) {
    '0' <= c <= '9'
  }

  predicate AllDigits(s: string) {
    forall k :: 0 <= k < |s| ==> IsDigit(s[k])
  }

  /** The decimal value of a digit string, read left to right. */
  function DigitsValue(s: string): nat
    requires AllDigits(s)
  {
    if s == [] then 0 else DigitsValue(s[..|s| - 1]) * 10 + (s[|s| - 1] as int - '0' as int)
  }

  /** `Integer.parseInt(s)` (radix 10, Java 7 and later): an optional `-` or `+`, then at least
      one digit, with the value inside the 32-bit range; anything else, surrounding spaces
      included, is a `NumberFormatException` (here `None`). */
  function ParseInt(s: string): (r: Option<int>)
    ensures r.Some? ==> MinInt <= r.value <= MaxInt
    ensures r.Some? ==> |s| > 0 && (IsDigit(s[0]) || s[0] == '-' || s[0] == '+')
    ensures r.Some? ==> forall k :: 0 < k < |s| ==> IsDigit(s[k])
    ensures r.Some? && s[0] != '-' ==> r.value >= 0
  {
    if s == [] then None
    else
      var negative := s[0] == '-';
      var digits := if s[0] == '-' || s[0] == '+' then s[1..] else s;
      if digits == [] || !AllDigits(digits) then None
      else
        var magnitude: int := DigitsValue(digits);
        var v := if negative then -magnitude else magnitude;
        if MinInt <= v <= MaxInt then Some(v) else None
  }

  function DigitChar(d: nat): char
    requires d < 10
  {
    ('0' as int + d) as char
  }

  /** The canonical decimal spelling of a natural number (`Integer.toString` for `n >= 0`). */
  function ShowNat(n: nat): (r: string)
    ensures |r| > 0 && AllDigits(r)
    ensures n >= 10 ==> r[0] != '0'
  {
    if n < 10 then [DigitChar(n)] else ShowNat(n / 10) + [DigitChar(n % 10)]
  }

  lemma {:induction false} DigitsValueShowNat(n: nat)
    ensures DigitsValue(ShowNat(n)) == n
  {
    if n >= 10 {
      DigitsValueShowNat(n / 10);
      var s := ShowNat(n);
      assert s[..|s| - 1] == ShowNat(n / 10);
    }
  }

  /** `parseInt` reads back every non-negative `int` from its decimal spelling. */
  lemma {:induction false} ParseShowNat(n: nat)
    requires n <= MaxInt
    ensures ParseInt(ShowNat(n)) == Some(n)
  {
    DigitsValueShowNat(n);
  }

  predicate AllZeros(z: string) {
    forall k :: 0 <= k < |z| ==> z[k] == '0'
  }

  function Magnitude(v: int): nat {
    if v < 0 then -v else v
  }

  /** `s` is `sign`, then the zeros `z`, then the canonical digits of `v`'s magnitude, where the
      sign is empty, `+` or `-`, and `-` is written only when `v` is not positive and must be
      written when it is negative. */
  predicate SpellsWith(s: string, v: int, sign: string, z: string) {
    && (sign == "" || sign == "+" || sign == "-")
    && AllZeros(z)
    && s == sign + z + ShowNat(Magnitude(v))
    && (v < 0 ==> sign == "-")
    && (sign == "-" ==> v <= 0)
  }

  /** `s` writes `v` in decimal as `parseInt` accepts it: an optional sign, any number of
      leading zeros, then the canonical digits. */
  ghost predicate Spells(s: string, v: int) {
    exists sign: string, z: string :: SpellsWith(s, v, sign, z)
  }

  lemma {:induction false} ZerosValue(z: string)
    requires AllZeros(z)
    ensures AllDigits(z) && DigitsValue(z) == 0
  {
    if z != [] {
      ZerosValue(z[..|z| - 1]);
    }
  }

  /** Leading zeros do not change a digit string's value. */
  lemma {:induction false} ZerosPrefix(z: string, t: string)
    requires AllZeros(z) && AllDigits(t)
    ensures AllDigits(z + t) && DigitsValue(z + t) == DigitsValue(t)
  {
    ZerosValue(z);
    if t == [] {
      assert z + t == z;
    } else {
      var t' := t[..|t| - 1];
      ZerosPrefix(z, t');
      assert (z + t)[..|z + t| - 1] == z + t';
      assert (z + t)[|z + t| - 1] == t[|t| - 1];
    }
  }

  /** Every digit string is zeros followed by the canonical spelling of its value. */
  lemma {:induction false} DigitsCanonical(t: string)
    requires t != [] && AllDigits(t)
    ensures Canonical(t)
  {
    var t' := t[..|t| - 1];
    var c := t[|t| - 1];
    assert t == t' + [c];
    if t' == [] || DigitsValue(t') == 0 {
      CanonicalOneDigit(t', c);
    } else {
      DigitsCanonical(t');
      CanonicalSnoc(t', c);
    }
  }

  /** `t` is zeros followed by the canonical spelling of its value. */
  predicate Canonical(t: string)
    requires AllDigits(t)
  {
    var sp := ShowNat(DigitsValue(t));
    && |sp| <= |t|
    && t[|t| - |sp|..] == sp
    && AllZeros(t[..|t| - |sp|])
  }

  /** Zeros followed by one digit spell that digit. */
  lemma {:induction false} CanonicalOneDigit(t: string, c: char)
    requires AllDigits(t) && IsDigit(c) && (t == [] || DigitsValue(t) == 0)
    ensures AllDigits(t + [c]) && Canonical(t + [c])
  {
    DigitsSnoc(t, c);
    if t != [] {
      ZerosOfValueZero(t);
    }
    assert ShowNat(DigitsValue(t + [c])) == [c];
    SliceSnoc(t, c, |t|);
  }

  /** A digit appended to a canonical string of positive value keeps it canonical. */
  lemma {:induction false} CanonicalSnoc(t: string, c: char)
    requires AllDigits(t) && IsDigit(c) && DigitsValue(t) >= 1 && Canonical(t)
    ensures AllDigits(t + [c]) && Canonical(t + [c])
  {
    DigitsSnoc(t, c);
    ShowNatSnoc(DigitsValue(t), c);
    SliceSnoc(t, c, |t| - |ShowNat(DigitsValue(t))|);
  }

  /** Appending a digit multiplies the value by ten and adds the digit. */
  lemma {:induction false} DigitsSnoc(t: string, c: char)
    requires AllDigits(t) && IsDigit(c)
    ensures AllDigits(t + [c])
    ensures DigitsValue(t + [c]) == DigitsValue(t) * 10 + (c as int - '0' as int)
  {
    assert (t + [c])[..|t|] == t;
  }

  /** The spelling of a number of two or more digits ends in its last digit. */
  lemma {:induction false} ShowNatSnoc(v: nat, c: char)
    requires v >= 1 && IsDigit(c)
    ensures ShowNat(v * 10 + (c as int - '0' as int)) == ShowNat(v) + [c]
  {
    var n := v * 10 + (c as int - '0' as int);
    assert n / 10 == v && n % 10 == c as int - '0' as int;
    assert DigitChar(n % 10) == c;
  }

  /** Splitting `t + [c]` at a point inside `t`. */
  lemma {:induction false} SliceSnoc(t: string, c: char, k: nat)
    requires k <= |t|
    ensures (t + [c])[k..] == t[k..] + [c]
    ensures (t + [c])[..k] == t[..k]
  {
  }

  lemma {:induction false} ZerosOfValueZero(t: string)
    requires AllDigits(t) && DigitsValue(t) == 0
    ensures AllZeros(t)
  {
    if t != [] {
      ZerosOfValueZero(t[..|t| - 1]);
      forall k | 0 <= k < |t|
        ensures t[k] == '0'
      {
        if k < |t| - 1 {
          assert t[k] == t[..|t| - 1][k];
        }
      }
    }
  }

  /** `parseInt` accepts exactly the spellings of 32-bit values: an optional `+` or `-`, leading
      zeros, then the digits; and it reads each as the value it spells. */
  lemma {:induction false} ParseIntSpells(s: string, v: int)
    ensures ParseInt(s) == Some(v) <==> Spells(s, v) && MinInt <= v <= MaxInt
  {
    if ParseInt(s) == Some(v) {
      ParsedSpells(s, v);
    }
    if Spells(s, v) && MinInt <= v <= MaxInt {
      var sign: string, z: string :| SpellsWith(s, v, sign, z);
      SpelledParses(s, v, sign, z);
    }
  }

  lemma {:induction false} ParsedSpells(s: string, v: int)
    requires ParseInt(s) == Some(v)
    ensures Spells(s, v)
  {
    if s[0] == '-' || s[0] == '+' {
      assert s == [s[0]] + s[1..];
      DigitsSpell(s[1..], [s[0]], s, v);
    } else {
      assert s == "" + s;
      DigitsSpell(s, "", s, v);
    }
  }

  /** The digits after the sign are zeros then the canonical digits of the value read. */
  lemma {:induction false} DigitsSpell(digits: string, sign: string, s: string, v: int)
    requires digits != [] && AllDigits(digits) && s == sign + digits
    requires sign == "" || sign == "+" || sign == "-"
    requires v == (if sign == "-" then -(DigitsValue(digits) as int) else DigitsValue(digits) as int)
    ensures Spells(s, v)
  {
    var m := DigitsValue(digits);
    assert Magnitude(v) == m;
    DigitsCanonical(digits);
    var shown := ShowNat(m);
    var z := digits[..|digits| - |shown|];
    assert digits == z + shown;
    assert s == sign + z + shown;
    assert SpellsWith(s, v, sign, z);
  }

  lemma {:induction false} SpelledParses(s: string, v: int, sign: string, z: string)
    requires SpellsWith(s, v, sign, z) && MinInt <= v <= MaxInt
    ensures ParseInt(s) == Some(v)
  {
    var m := Magnitude(v);
    var digits := z + ShowNat(m);
    ZerosPrefix(z, ShowNat(m));
    DigitsValueShowNat(m);
    assert s == sign + digits;
    ParseSigned(s, sign, digits, v);
  }

  /** A sign followed by digits reads as the signed value of the digits. */
  lemma {:induction false} ParseSigned(s: string, sign: string, digits: string, v: int)
    requires sign == "" || sign == "+" || sign == "-"
    requires s == sign + digits && digits != [] && AllDigits(digits)
    requires v == (if sign == "-" then -(DigitsValue(digits) as int) else DigitsValue(digits) as int)
    requires MinInt <= v <= MaxInt
    ensures ParseInt(s) == Some(v)
  {
    if sign == "" {
      assert s == digits;
      assert IsDigit(s[0]);
    } else {
      assert s[0] == sign[0];
      assert s[1..] == digits;
    }
  }

  /** `parseInt` does not trim: a port text with a space anywhere in it is rejected. */
  lemma {:induction false} ParseIntRejectsSpace(s: string, k: nat)
    requires k < |s| && s[k] == ' '
    ensures ParseInt(s) == None
  {
  }
}
