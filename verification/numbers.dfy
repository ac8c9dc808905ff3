/**
 * The two numeric coercions the core applies to strings, `Number(s)` and
 * `Number.parseInt(s, 10)`, restricted to decimal integers.
 */
module JsNumber {
  import opened Wrappers
  import opened JsString

  predicate IsDigit(c: char) {
    '0' <= c <= '9'
  }

  predicate AllDigits(s: string) {
    forall k :: 0 <= k < |s| ==> IsDigit(s[k])
  }

  function DigitValue(c: char): nat
    requires IsDigit(c)
  {
    c as int - '0' as int
  }

  function DigitChar(d: nat): char
    requires d < 10
  {
    (d + '0' as int) as char
  }

  /** The value of a decimal digit string, most significant digit first. */
  function DigitsValue(ds: string): nat
    requires AllDigits(ds)
  {
    if ds == [] then 0 else 10 * DigitsValue(ds[..|ds| - 1]) + DigitValue(ds[|ds| - 1])
  }

  /** The decimal rendering of `n` without leading zeros (what `String(n)` gives). */
  function ShowNat(n: nat): (r: string)
    ensures r != [] && AllDigits(r)
  {
    if n < 10 then [DigitChar(n)] else ShowNat(n / 10) + [DigitChar(n % 10)]
  }

  /** Reading back a rendered number gives the number. */
  lemma {:induction false} DigitsValueOfShowNat(n: nat)
    ensures DigitsValue(ShowNat(n)) == n
  {
    if n >= 10 {
      var s := ShowNat(n);
      assert s[..|s| - 1] == ShowNat(n / 10);
      DigitsValueOfShowNat(n / 10);
    }
  }

  /** A leading zero does not change the value of a digit string. */
  lemma {:induction false} LeadingZeroIgnored(ds: string)
    requires AllDigits(ds)
    ensures AllDigits(['0'] + ds) && DigitsValue(['0'] + ds) == DigitsValue(ds)
    decreases |ds|
  {
    var z := ['0'] + ds;
    if ds != [] {
      assert z[..|z| - 1] == ['0'] + ds[..|ds| - 1];
      assert z[|z| - 1] == ds[|ds| - 1];
      LeadingZeroIgnored(ds[..|ds| - 1]);
    }
  }

  /** An optional sign followed by at least one digit and nothing else. */
  predicate IsSignedDigits(s: string) {
    if s != [] && (s[0] == '+' || s[0] == '-') then s[1..] != [] && AllDigits(s[1..])
    else s != [] && AllDigits(s)
  }

  function SignedDigitsValue(s: string): int
    requires IsSignedDigits(s)
  {
    if s[0] == '-' then -(DigitsValue(s[1..]) as int)
    else if s[0] == '+' then DigitsValue(s[1..])
    else DigitsValue(s)
  }

  /**
   * `Number(s)` where `None` stands for `NaN`: surrounding whitespace is
   * ignored, the empty string is 0, a signed decimal integer is its value.
   */
  function NumberOf(s: string): (r: Option<int>)
    ensures Trim(s) == [] ==> r == Some(0)
    ensures Trim(s) != [] ==> (r.Some? <==> IsSignedDigits(Trim(s)))
    ensures Trim(s) != [] && r.Some? ==> r.value == SignedDigitsValue(Trim(s))
  {
    var t := Trim(s);
    if t == [] then Some(0)
    else if IsSignedDigits(t) then Some(SignedDigitsValue(t))
    else None
  }

  /** `Number(a) === Number(b)`: `NaN` equals nothing, not even itself. */
  predicate SameNumber(a: string, b: string)
    ensures a == b ==> (SameNumber(a, b) <==> NumberOf(a).Some?)
  {
    NumberOf(a).Some? && NumberOf(a) == NumberOf(b)
  }

  /** Numeric comparison ignores leading zeros: `"01"` matches `"1"`. */
  lemma SameNumberLeadingZero(ds: string)
    requires ds != [] && AllDigits(ds)
    ensures SameNumber(['0'] + ds, ds)
  {
    var z := ['0'] + ds;
    LeadingZeroIgnored(ds);
    TrimUnchanged(ds);
    TrimUnchanged(z);
    assert IsSignedDigits(ds);
    assert z[0] == '0' && z[1..] == ds;
  }

  /** The matching relation is symmetric and transitive, and a non-number matches nothing. */
  lemma SameNumberIsPartialEquivalence(a: string, b: string, c: string)
    ensures SameNumber(a, b) ==> SameNumber(b, a)
    ensures SameNumber(a, b) && SameNumber(b, c) ==> SameNumber(a, c)
    ensures NumberOf(a).None? ==> !SameNumber(a, b) && !SameNumber(b, a)
  {
  }

  /** The longest prefix of decimal digits. */
  function DigitPrefix(s: string): (r: string)
    ensures AllDigits(r) && |r| <= |s| && r == s[..|r|]
    ensures |r| < |s| ==> !IsDigit(s[|r|])
  {
    if s != [] && IsDigit(s[0]) then [s[0]] + DigitPrefix(s[1..]) else []
  }

  /**
   * `Number.parseInt(s, 10)` with `None` for `NaN`: leading whitespace and
   * one sign are skipped, then the longest run of digits is read.
   */
  function ParseInt(s: string): (r: Option<int>)
    ensures r.Some? <==>
      var t := TrimStart(s);
      var body := if t != [] && (t[0] == '+' || t[0] == '-') then t[1..] else t;
      body != [] && IsDigit(body[0])
  {
    ReadSignedDigits(TrimStart(s))
  }

  /** One optional sign, then the longest run of digits; `None` when no digit follows. */
  function ReadSignedDigits(t: string): Option<int> {
    var negative := t != [] && t[0] == '-';
    var body := if t != [] && (t[0] == '+' || t[0] == '-') then t[1..] else t;
    var ds := DigitPrefix(body);
    if ds == [] then None
    else Some(if negative then -(DigitsValue(ds) as int) else DigitsValue(ds))
  }

  /**
   * `parseInt` skips leading whitespace and one sign, then reads the whole
   * digit run (leading zeros included) and stops at the first non-digit.
   */
  lemma ParseIntReads(w: string, sign: string, ds: string, tail: string)
    requires forall c :: c in w ==> IsWhitespace(c)
    requires sign == [] || sign == "+" || sign == "-"
    requires ds != [] && AllDigits(ds)
    requires tail == [] || !IsDigit(tail[0])
    ensures ParseInt(w + sign + ds + tail) ==
      Some(if sign == "-" then -(DigitsValue(ds) as int) else DigitsValue(ds))
  {
    var x := sign + ds + tail;
    assert w + sign + ds + tail == w + x;
    assert !IsWhitespace(x[0]) by {
      assert x[0] == if sign == [] then ds[0] else sign[0];
    }
    TrimStartSkips(w, x);
    ReadSignedDigitsOf(sign, ds, tail);
  }

  lemma ReadSignedDigitsOf(sign: string, ds: string, tail: string)
    requires sign == [] || sign == "+" || sign == "-"
    requires ds != [] && AllDigits(ds)
    requires tail == [] || !IsDigit(tail[0])
    ensures ReadSignedDigits(sign + ds + tail) ==
      Some(if sign == "-" then -(DigitsValue(ds) as int) else DigitsValue(ds))
  {
    if sign == [] {
      assert sign + ds + tail == ds + tail;
      ReadUnsignedDigits(ds, tail);
    } else {
      assert sign + ds + tail == [sign[0]] + (ds + tail);
      ReadSignedDigitsAfterSign(sign[0], ds, tail);
    }
  }

  lemma ReadUnsignedDigits(ds: string, tail: string)
    requires ds != [] && AllDigits(ds)
    requires tail == [] || !IsDigit(tail[0])
    ensures ReadSignedDigits(ds + tail) == Some(DigitsValue(ds))
  {
    DigitPrefixOfDigits(ds, tail);
    assert (ds + tail)[0] == ds[0];
  }

  lemma ReadSignedDigitsAfterSign(c: char, ds: string, tail: string)
    requires c == '+' || c == '-'
    requires ds != [] && AllDigits(ds)
    requires tail == [] || !IsDigit(tail[0])
    ensures ReadSignedDigits([c] + (ds + tail)) ==
      Some(if c == '-' then -(DigitsValue(ds) as int) else DigitsValue(ds))
  {
    var x := [c] + (ds + tail);
    assert x[0] == c && x[1..] == ds + tail;
    DigitPrefixOfDigits(ds, tail);
  }

  /** Leading whitespace before text that does not start with whitespace is exactly what `trimStart` removes. */
  lemma {:induction false} TrimStartSkips(w: string, x: string)
    requires forall c :: c in w ==> IsWhitespace(c)
    requires x == [] || !IsWhitespace(x[0])
    ensures TrimStart(w + x) == x
    decreases |w|
  {
    if w != [] {
      assert (w + x)[1..] == w[1..] + x;
      assert w[0] in w;
      TrimStartSkips(w[1..], x);
    } else {
      assert w + x == x;
    }
  }

  /** A rendered number followed by anything that is not a digit parses back to the number. */
  lemma ParseIntOfRendered(n: nat, tail: string)
    requires tail == [] || !IsDigit(tail[0])
    ensures ParseInt(ShowNat(n) + tail) == Some(n)
  {
    ParseIntOfDigits(ShowNat(n), tail);
    DigitsValueOfShowNat(n);
  }

  lemma ParseIntOfDigits(ds: string, tail: string)
    requires ds != [] && AllDigits(ds)
    requires tail == [] || !IsDigit(tail[0])
    ensures ParseInt(ds + tail) == Some(DigitsValue(ds))
  {
    var x := ds + tail;
    assert x[0] == ds[0];
    assert TrimStart(x) == x;
    ReadUnsignedDigits(ds, tail);
  }

  lemma {:induction false} DigitPrefixOfDigits(s: string, tail: string)
    requires AllDigits(s)
    requires tail == [] || !IsDigit(tail[0])
    ensures DigitPrefix(s + tail) == s
    decreases |s|
  {
    if s != [] {
      assert (s + tail)[1..] == s[1..] + tail;
      DigitPrefixOfDigits(s[1..], tail);
    } else {
      assert s + tail == tail;
    }
  }
}
