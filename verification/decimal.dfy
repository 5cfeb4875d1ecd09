/** Decimal renderings and parsers with Java semantics: `String.valueOf`
    on integers, `Long.parseLong` / `Integer.parseInt`, `Double.parseDouble`
    on plain decimal literals, `String.format("%013d", n)`, and the
    lexicographic order of `String.compareTo`. */
module Decimal {
  import opened Wrappers
  import Text
  import opened JavaInt


  predicate IsDigit(c: char)
  {
    '0' <= c <= '9'
  }

  predicate AllDigits(s: string)
  {
    forall i :: 0 <= i < |s| ==> IsDigit(s[i])
  }

  function DigitValue(c: char): nat
    requires IsDigit(c)
  {
    c as int - '0' as int
  }

  function DigitChar(d: nat): (c: char)
    requires d < 10
    ensures IsDigit(c) && DigitValue(c) == d
  {
    ('0' as int + d) as char
  }

  function Pow10(n: nat): (p: nat)
    ensures p >= 1
  {
    if n == 0 then 1 else 10 * Pow10(n - 1)
  }

  /** The number a string of decimal digits denotes (most significant first). */
  function Value(s: string): nat
    requires AllDigits(s)
  {
    if |s| == 0 then 0 else DigitValue(s[0]) * Pow10(|s| - 1) + Value(s[1..])
  }

  lemma {:induction false} ValueBound(s: string)
    requires AllDigits(s)
    ensures Value(s) < Pow10(|s|)
  {
    if |s| > 0 {
      ValueBound(s[1..]);
      var d := DigitValue(s[0]);
      var p := Pow10(|s| - 1);
      assert d * p <= 9 * p by {
        MulMonotone(d, 9, p);
      }
    }
  }

  lemma MulAssoc(a: nat, b: nat, c: nat)
    ensures a * (b * c) == a * b * c
  {
  }

  lemma MulMonotone(a: nat, b: nat, p: nat)
    requires a <= b
    ensures a * p <= b * p
  {
  }

  lemma {:induction false} ValueAppend(s: string, c: char)
    requires AllDigits(s) && IsDigit(c)
    ensures AllDigits(s + [c])
    ensures Value(s + [c]) == Value(s) * 10 + DigitValue(c)
  {
    if |s| > 0 {
      var t := s + [c];
      assert AllDigits(t) by {
        assert forall i :: 0 <= i < |s| ==> t[i] == s[i];
      }
      assert t[1..] == s[1..] + [c];
      ValueAppend(s[1..], c);
      var d, p, v := DigitValue(s[0]), Pow10(|s| - 1), Value(s[1..]);
      assert Pow10(|s|) == p * 10;
      MulAssoc(d, p, 10);
      calc {
        Value(t);
        d * Pow10(|s|) + Value(s[1..] + [c]);
        d * p * 10 + (v * 10 + DigitValue(c));
        (d * p + v) * 10 + DigitValue(c);
        Value(s) * 10 + DigitValue(c);
      }
    }
  }

  lemma {:induction false} ValueLeadingZeros(z: nat, s: string)
    requires AllDigits(s)
    ensures AllDigits(Zeros(z) + s)
    ensures Value(Zeros(z) + s) == Value(s)
  {
    if z > 0 {
      var t := Zeros(z) + s;
      assert t[0] == '0';
      assert t[1..] == Zeros(z - 1) + s;
      ValueLeadingZeros(z - 1, s);
      assert DigitValue(t[0]) == 0;
      assert Value(t) == DigitValue(t[0]) * Pow10(|t| - 1) + Value(t[1..]);
    } else {
      assert Zeros(z) + s == s;
    }
  }

  /** The shortest decimal rendering of `n` ("0" for zero). */
  function NatDigits(n: nat): (s: string)
    ensures |s| >= 1
    ensures AllDigits(s)
    ensures Value(s) == n
    ensures |s| > 1 ==> s[0] != '0'
  {
    if n < 10 then [DigitChar(n)]
    else
      var init := NatDigits(n / 10);
      ValueAppend(init, DigitChar(n % 10));
      init + [DigitChar(n % 10)]
  }

  /** The rendering of `n` fits in `k` digits exactly when `n < 10^k`. */
  lemma NatDigitsLength(n: nat, k: nat)
    ensures |NatDigits(n)| <= k || k == 0 <==> n < Pow10(k) || k == 0
  {
    var s := NatDigits(n);
    ValueBound(s);
    if |s| <= k {
      PowMonotone(|s|, k);
    } else if k > 0 {
      assert s[0] != '0' || |s| == 1;
      LeadingDigitBound(s);
      PowMonotone(k, |s| - 1);
    }
  }

  lemma {:induction false} PowMonotone(a: nat, b: nat)
    requires a <= b
    ensures Pow10(a) <= Pow10(b)
  {
    if a < b {
      PowMonotone(a, b - 1);
    }
  }

  lemma LeadingDigitBound(s: string)
    requires AllDigits(s) && |s| >= 1
    requires |s| > 1 ==> s[0] != '0'
    ensures |s| > 1 ==> Value(s) >= Pow10(|s| - 1)
  {
    if |s| > 1 {
      MulMonotone(1, DigitValue(s[0]), Pow10(|s| - 1));
    }
  }

  /** A three-digit number renders as its hundreds, tens and units digits. */
  lemma ThreeDigits(n: nat)
    requires 100 <= n < 1000
    ensures NatDigits(n) == [DigitChar(n / 100), DigitChar(n / 10 % 10), DigitChar(n % 10)]
  {
    assert NatDigits(n / 10) == NatDigits(n / 10 / 10) + [DigitChar(n / 10 % 10)];
    assert n / 10 / 10 == n / 100;
  }

  /** `String.valueOf(i)` for a Java integer. */
  function IntToDecimal(i: int): (s: string)
    ensures |s| >= 1
  {
    if i < 0 then "-" + NatDigits(-i) else NatDigits(i)
  }

  /** Java's `Long.parseLong` / `Integer.parseInt` grammar with the range
      [lo, hi]: an optional sign, at least one ASCII digit and nothing else;
      `None` stands for the `NumberFormatException`. */
  function ParseSigned(s: string, lo: int, hi: int): (r: Option<int>)
    ensures r.Some? ==> lo <= r.value <= hi
    ensures |s| == 0 ==> r.None?
  {
    if |s| == 0 then None
    else
      var negative := s[0] == '-';
      var body := if s[0] == '-' || s[0] == '+' then s[1..] else s;
      if |body| == 0 || !AllDigits(body) then None
      else
        var v: int := if negative then -(Value(body) as int) else Value(body);
        if lo <= v <= hi then Some(v) else None
  }

  function ParseLong(s: string): Option<int>
  {
    ParseSigned(s, LONG_MIN, LONG_MAX)
  }

  function ParseInt(s: string): Option<int>
  {
    ParseSigned(s, INT_MIN, INT_MAX)
  }

  /** Parsing the decimal rendering of an in-range integer gives it back. */
  lemma ParseRoundTrip(n: int, lo: int, hi: int)
    requires lo <= n <= hi
    ensures ParseSigned(IntToDecimal(n), lo, hi) == Some(n)
  {
    var s := IntToDecimal(n);
    if n < 0 {
      assert s[1..] == NatDigits(-n);
    } else {
      assert s == NatDigits(n);
      assert IsDigit(s[0]);
    }
  }

  /** Different integers have different renderings. */
  lemma IntToDecimalInjective(a: int, b: int)
    requires IntToDecimal(a) == IntToDecimal(b)
    ensures a == b
  {
    var lo := if a < b then a else b;
    var hi := if a < b then b else a;
    ParseRoundTrip(a, lo, hi);
    ParseRoundTrip(b, lo, hi);
  }

  /** A digit string with an optional sign parses to its signed value
      exactly when that value lies in range; leading zeros and a "+" are
      accepted. */
  lemma ParseSignedDigits(sign: string, d: string, lo: int, hi: int)
    requires sign == "" || sign == "+" || sign == "-"
    requires |d| > 0 && AllDigits(d)
    ensures var v := if sign == "-" then -(Value(d) as int) else Value(d) as int;
      ParseSigned(sign + d, lo, hi) == if lo <= v <= hi then Some(v) else None
  {
    var s := sign + d;
    if sign == "" {
      assert s == d;
      assert IsDigit(d[0]);
    } else {
      assert s[0] == sign[0] && s[1..] == d;
    }
  }

  /** An unsigned digit string within range parses to its value. */
  lemma ParseDigits(d: string, lo: int, hi: int)
    requires |d| > 0 && AllDigits(d)
    requires lo <= 0 && Value(d) <= hi
    ensures ParseSigned(d, lo, hi) == Some(Value(d) as int)
  {
    assert IsDigit(d[0]);
  }

  /** A string of `n` zero digits. */
  function Zeros(n: nat): (z: string)
    ensures |z| == n
    ensures AllDigits(z)
  {
    if n == 0 then "" else "0" + Zeros(n - 1)
  }

  /** `String.format("%013d", ms)`: at least 13 characters, zero-padded
      after the sign. */
  function Key13(ms: int): (s: string)
    ensures |s| >= 13
  {
    var d := NatDigits(if ms < 0 then -ms else ms);
    if ms >= 0 then (if |d| >= 13 then d else Zeros(13 - |d|) + d)
    else "-" + (if |d| >= 12 then d else Zeros(12 - |d|) + d)
  }

  const KEY_SPAN: nat := 10_000_000_000_000

  lemma Pow13()
    ensures Pow10(13) == KEY_SPAN
  {
  }

  /** For 0 <= ms < 10^13 the key is exactly 13 digits denoting ms. */
  lemma Key13Digits(ms: int)
    requires 0 <= ms < KEY_SPAN
    ensures |Key13(ms)| == 13
    ensures AllDigits(Key13(ms))
    ensures Value(Key13(ms)) == ms
  {
    Pow13();
    NatDigitsLength(ms, 13);
    ValueLeadingZeros(13 - |NatDigits(ms)|, NatDigits(ms));
  }

  lemma Key13Parses(ms: int)
    requires 0 <= ms < KEY_SPAN
    ensures ParseLong(Key13(ms)) == Some(ms)
  {
    Key13Digits(ms);
    assert IsDigit(Key13(ms)[0]);
  }

  /** Range keys sort as the times they encode. */
  lemma Key13Order(a: int, b: int)
    requires 0 <= a < KEY_SPAN && 0 <= b < KEY_SPAN
    ensures LexLe(Key13(a), Key13(b)) <==> a <= b
  {
    Key13Digits(a);
    Key13Digits(b);
    LexOrderIsNumericOrder(Key13(a), Key13(b));
  }

  /** `a.compareTo(b) <= 0` on strings: lexicographic by character. */
  predicate LexLe(a: string, b: string)
  {
    |a| == 0 || (|b| > 0 && (a[0] < b[0] || (a[0] == b[0] && LexLe(a[1..], b[1..]))))
  }

  predicate LexLess(a: string, b: string)
  {
    !LexLe(b, a)
  }

  lemma {:induction false} LexLeTotal(a: string, b: string)
    ensures LexLe(a, b) || LexLe(b, a)
  {
    if |a| > 0 && |b| > 0 && a[0] == b[0] {
      LexLeTotal(a[1..], b[1..]);
    }
  }

  lemma {:induction false} LexLeTransitive(a: string, b: string, c: string)
    requires LexLe(a, b) && LexLe(b, c)
    ensures LexLe(a, c)
  {
    if |a| > 0 && a[0] == b[0] && b[0] == c[0] {
      LexLeTransitive(a[1..], b[1..], c[1..]);
    }
  }

  lemma {:induction false} LexLeAntisymmetric(a: string, b: string)
    requires LexLe(a, b) && LexLe(b, a)
    ensures a == b
  {
    if |a| > 0 {
      LexLeAntisymmetric(a[1..], b[1..]);
      assert a == [a[0]] + a[1..];
      assert b == [b[0]] + b[1..];
    }
  }

  /** On digit strings of equal length, lexicographic order is numeric order. */
  lemma {:induction false} LexOrderIsNumericOrder(a: string, b: string)
    requires AllDigits(a) && AllDigits(b) && |a| == |b|
    ensures LexLe(a, b) <==> Value(a) <= Value(b)
  {
    if |a| > 0 {
      LexOrderIsNumericOrder(a[1..], b[1..]);
      var p := Pow10(|a| - 1);
      var da, db := DigitValue(a[0]), DigitValue(b[0]);
      ValueBound(a[1..]);
      ValueBound(b[1..]);
      assert Value(a) == da * p + Value(a[1..]);
      assert Value(b) == db * p + Value(b[1..]);
      if da < db {
        DigitStepDominates(da, db, p, Value(a[1..]), Value(b[1..]));
      } else if db < da {
        DigitStepDominates(db, da, p, Value(b[1..]), Value(a[1..]));
      }
    }
  }

  lemma DigitStepDominates(d: nat, e: nat, p: nat, x: nat, y: nat)
    requires d < e && x < p
    ensures d * p + x < e * p + y
  {
    MulMonotone(d + 1, e, p);
  }

  /** Lexicographic order of two strings is decided inside their first `n`
      characters when those prefixes already differ. */
  lemma {:induction false} LexDecidedByPrefix(a: string, b: string, n: nat)
    requires n <= |a| && n <= |b| && a[..n] != b[..n]
    ensures LexLe(a, b) <==> LexLe(a[..n], b[..n])
  {
    if a[0] == b[0] {
      assert a[1..][..n - 1] == a[..n][1..];
      assert b[1..][..n - 1] == b[..n][1..];
      LexDecidedByPrefix(a[1..], b[1..], n - 1);
    }
  }

  lemma {:induction false} LexPrefixBelow(a: string, b: string)
    ensures LexLe(a, a + b)
  {
    if |a| > 0 {
      assert (a + b)[1..] == a[1..] + b;
      LexPrefixBelow(a[1..], b);
    }
  }

  /** Two 13-digit strings denoting the same number are equal. */
  lemma SameValueSameDigits(a: string, b: string)
    requires AllDigits(a) && AllDigits(b) && |a| == |b| && Value(a) == Value(b)
    ensures a == b
  {
    LexOrderIsNumericOrder(a, b);
    LexOrderIsNumericOrder(b, a);
    LexLeAntisymmetric(a, b);
  }

  /** A row key made of 13 digits, '#' and anything lies in the scan range
      [Key13(start), Key13(end)) exactly when start <= its time < end: the
      reason a key-range scan selects logs by time. */
  lemma RowKeyInScanRange(d: string, start: int, end: int, rest: string)
    requires |d| == 13 && AllDigits(d)
    requires 0 <= start < KEY_SPAN && 0 <= end < KEY_SPAN
    ensures var key := d + "#" + rest;
      (LexLe(Key13(start), key) && LexLess(key, Key13(end))) <==> start <= Value(d) < end
  {
    var key := d + ("#" + rest);
    assert key == d + "#" + rest;
    assert key[..13] == d;
    Key13Digits(start);
    Key13Digits(end);
    ScanBound(d, start, key, "#" + rest);
    ScanBound(d, end, key, "#" + rest);
  }

  lemma ScanBound(d: string, bound: int, key: string, tail: string)
    requires |d| == 13 && AllDigits(d) && key == d + tail
    requires 0 <= bound < KEY_SPAN
    ensures LexLe(Key13(bound), key) <==> bound <= Value(d)
  {
    var k := Key13(bound);
    Key13Digits(bound);
    assert key[..13] == d;
    if k == d {
      LexPrefixBelow(d, tail);
    } else {
      assert k[..13] == k;
      LexDecidedByPrefix(k, key, 13);
      LexOrderIsNumericOrder(k, d);
      if Value(d) == bound {
        SameValueSameDigits(k, d);
      }
    }
  }

  /** `Double.parseDouble` restricted to plain decimal literals: an optional
      sign, digits with at most one '.', and at least one digit. */
  function ParseDecimal(s: string): (r: Option<real>)
    ensures |s| == 0 ==> r.None?
  {
    if |s| == 0 then None
    else
      var negative := s[0] == '-';
      var body := if s[0] == '-' || s[0] == '+' then s[1..] else s;
      var parts := Text.SplitFirst(body, '.');
      var whole := parts[0];
      var frac := if |parts| == 2 then parts[1] else "";
      if !AllDigits(whole) || !AllDigits(frac) || |whole| + |frac| == 0 then None
      else
        var m := FixedValue(whole, frac);
        Some(if negative then -m else m)
  }

  /** The value of the literal "whole.frac". */
  function FixedValue(whole: string, frac: string): real
    requires AllDigits(whole) && AllDigits(frac)
  {
    Value(whole) as real + Value(frac) as real / Pow10(|frac|) as real
  }

  /** A rendered integer parses as a double to the same value. */
  lemma ParseDecimalOfInteger(n: int)
    ensures ParseDecimal(IntToDecimal(n)) == Some(n as real)
  {
    var s := IntToDecimal(n);
    var body := if n < 0 then NatDigits(-n) else NatDigits(n);
    assert '.' !in body by {
      assert forall i :: 0 <= i < |body| ==> IsDigit(body[i]);
    }
    if n < 0 {
      assert s[1..] == body;
    } else {
      assert IsDigit(s[0]);
    }
  }

  /** A literal "w.f" parses to w + f / 10^|f|. */
  lemma ParseDecimalFraction(w: string, f: string)
    requires |w| > 0 && AllDigits(w) && AllDigits(f)
    ensures ParseDecimal(w + "." + f) == Some(FixedValue(w, f))
  {
    var lit := w + ['.'] + f;
    assert lit == w + "." + f;
    assert '.' !in w by {
      assert forall i :: 0 <= i < |w| ==> IsDigit(w[i]);
    }
    Text.SplitFirstAfterJoin(w, '.', f);
    assert lit[0] == w[0];
    assert IsDigit(lit[0]);
    assert lit[0] != '-' && lit[0] != '+';
  }
}
