/** The small option type used for "maybe a match" and "maybe a reading". */
module Wrappers {

  datatype Option<+T> = None | Some(value: T)
}

/**
 Character classes and numeral parsing used by the lab patterns.

 Only ASCII is modelled: `\d` is '0'..'9' and case-insensitive comparison
 folds the ASCII letters 'A'..'Z' onto 'a'..'z'.
 */
module Text {

  /** The regular-expression class `\d`, restricted to ASCII digits. */
  predicate IsDigit(c: char) {
    '0' <= c <= '9'
  }

  /** ASCII lower-casing: the folding `re.IGNORECASE` applies to letters.
      The result is never an upper-case letter, so folding twice is folding
      once; letters stay letters, and every other character (digits, the
      point, whitespace) is left as it is. */
  function Lower(c: char): (l: char)
    ensures !('A' <= l <= 'Z')
    ensures 'a' <= l <= 'z' <==> 'a' <= c <= 'z' || 'A' <= c <= 'Z'
    ensures !('a' <= c <= 'z' || 'A' <= c <= 'Z') ==> l == c
  {
    if 'A' <= c <= 'Z' then (c as int + 32) as char else c
  }

  /** Two characters match each other under `re.IGNORECASE`. */
  predicate SameIgnoringCase(a: char, b: char) {
    Lower(a) == Lower(b)
  }

  /** Case folding never turns a non-letter into something else, so a
      digit or a '.' only matches itself. */
  lemma {:induction false} NonLetterMatchesOnlyItself(a: char, b: char)
    requires SameIgnoringCase(a, b)
    requires !('A' <= a <= 'Z') && !('a' <= a <= 'z')
    ensures a == b
  {
  }

  /** `name` occurs in `s` at index `i`, ignoring ASCII case. */
  predicate OccursAt(s: string, name: string, i: nat) {
    i + |name| <= |s| && forall t :: 0 <= t < |name| ==> SameIgnoringCase(s[i + t], name[t])
  }

  /** No character of `s[lo..hi]` is a digit: what `[^\d]*` consumes. */
  predicate NoDigitIn(s: string, lo: nat, hi: nat) {
    lo <= hi <= |s| && forall t :: lo <= t < hi ==> !IsDigit(s[t])
  }

  /** Every character of `s[lo..hi]` is a digit (the run may be empty). */
  predicate DigitsIn(s: string, lo: nat, hi: nat) {
    lo <= hi <= |s| && forall t :: lo <= t < hi ==> IsDigit(s[t])
  }

  /** The first digit at or after `p`, or `|s|` when there is none. */
  function FirstDigitFrom(s: string, p: nat): (q: nat)
    requires p <= |s|
    ensures NoDigitIn(s, p, q)
    ensures q < |s| ==> IsDigit(s[q])
    decreases |s| - p
  {
    if p == |s| || IsDigit(s[p]) then p else FirstDigitFrom(s, p + 1)
  }

  /** The end of the maximal digit run starting at `p`. */
  function DigitRunEnd(s: string, p: nat): (q: nat)
    requires p <= |s|
    ensures DigitsIn(s, p, q)
    ensures q < |s| ==> !IsDigit(s[q])
    decreases |s| - p
  {
    if p == |s| || !IsDigit(s[p]) then p else DigitRunEnd(s, p + 1)
  }

  /** A digit run that ends where the next character is not a digit has
      exactly the end DigitRunEnd computes. */
  lemma {:induction false} DigitRunEndUnique(s: string, p: nat, q: nat)
    requires DigitsIn(s, p, q)
    requires q < |s| ==> !IsDigit(s[q])
    ensures DigitRunEnd(s, p) == q
    decreases |s| - p
  {
    if p < q {
      DigitRunEndUnique(s, p + 1, q);
    }
  }

  /** A run of non-digits followed by a digit (or by the end of `s`) ends
      exactly where FirstDigitFrom says. */
  lemma {:induction false} FirstDigitFromUnique(s: string, p: nat, q: nat)
    requires NoDigitIn(s, p, q)
    requires q < |s| ==> IsDigit(s[q])
    ensures FirstDigitFrom(s, p) == q
    decreases |s| - p
  {
    if p < q {
      FirstDigitFromUnique(s, p + 1, q);
    }
  }

  function DigitValue(c: char): (v: nat)
    requires IsDigit(c)
    ensures v < 10
  {
    c as int - '0' as int
  }

  function Pow10(n: nat): (p: nat)
    ensures p >= 1
  {
    if n == 0 then 1 else 10 * Pow10(n - 1)
  }

  /** The value of a string of decimal digits, most significant first. */
  function NatValue(d: string): (v: nat)
    requires DigitsIn(d, 0, |d|)
    ensures v < Pow10(|d|)
  {
    if |d| == 0 then 0
    else
      assert DigitsIn(d[..|d| - 1], 0, |d| - 1);
      10 * NatValue(d[..|d| - 1]) + DigitValue(d[|d| - 1])
  }

  /** A numeral as the lab patterns capture it: `\d+` or `\d+\.\d+`. */
  ghost predicate IsNumeral(t: string) {
    || (0 < |t| && DigitsIn(t, 0, |t|))
    || exists d :: 0 < d && d + 1 < |t| && DigitsIn(t, 0, d) && t[d] == '.' && DigitsIn(t, d + 1, |t|)
  }

  /** The whole-number part of a numeral: its leading digit run. */
  function WholePart(t: string): nat {
    var d := DigitRunEnd(t, 0);
    assert DigitsIn(t[..d], 0, d);
    NatValue(t[..d])
  }

  /** The number of digits after the point of a numeral (zero when it has
      no point). */
  function FractionDigits(t: string): nat
    requires IsNumeral(t)
  {
    var d := DigitRunEnd(t, 0);
    if d == |t| then 0 else |t| - d - 1
  }

  /** The digits of a numeral with its point, if any, left out. */
  function Unpointed(t: string): (u: string)
    requires IsNumeral(t)
    ensures DigitsIn(u, 0, |u|)
  {
    var d := DigitRunEnd(t, 0);
    if d == |t| then t
    else
      PointedDigits(t);
      t[..d] + t[d + 1..]
  }

  /** After the leading digit run of a pointed numeral come the point and
      nothing but digits. */
  lemma PointedDigits(t: string)
    requires IsNumeral(t) && DigitRunEnd(t, 0) < |t|
    ensures var d := DigitRunEnd(t, 0);
            d + 1 < |t| && t[d] == '.' && DigitsIn(t[d + 1..], 0, |t| - d - 1)
  {
    var e :| 0 < e && e + 1 < |t| && DigitsIn(t, 0, e) && t[e] == '.' && DigitsIn(t, e + 1, |t|);
    DigitRunEndUnique(t, 0, e);
  }

  /** Python's `float()` on a numeral, as an exact real (no binary rounding).
      Scaled by ten to the number of decimals it is the integer the digits
      spell with the point left out ("4.51" is 451 / 100), so it lies in the
      half-open unit interval above the numeral's whole-number part. */
  function NumberValue(t: string): (r: real)
    requires IsNumeral(t)
    ensures r == NatValue(Unpointed(t)) as real / Pow10(FractionDigits(t)) as real
    ensures WholePart(t) as real <= r < WholePart(t) as real + 1.0
    ensures DigitsIn(t, 0, |t|) ==> r == NatValue(t) as real
  {
    var d := DigitRunEnd(t, 0);
    if d == |t| then
      assert t[..d] == t;
      NatValue(t) as real
    else
      PointedDigits(t);
      assert DigitsIn(t[..d], 0, d);
      PointedValue(t);
      NatValue(t[..d]) as real + NatValue(t[d + 1..]) as real / Pow10(|t| - d - 1) as real
  }

  /** The arithmetic behind NumberValue for a numeral with a point. */
  lemma PointedValue(t: string)
    requires IsNumeral(t) && DigitRunEnd(t, 0) < |t|
    ensures var d := DigitRunEnd(t, 0);
            && d + 1 < |t| && DigitsIn(t[..d], 0, d) && DigitsIn(t[d + 1..], 0, |t| - d - 1)
            && var v := NatValue(t[..d]) as real + NatValue(t[d + 1..]) as real / Pow10(|t| - d - 1) as real;
               && v == NatValue(Unpointed(t)) as real / Pow10(FractionDigits(t)) as real
               && WholePart(t) as real <= v < WholePart(t) as real + 1.0
  {
    var d := DigitRunEnd(t, 0);
    PointedPieces(t);
    var w, frac := t[..d], t[d + 1..];
    var scale := Pow10(|t| - d - 1);
    assert NatValue(Unpointed(t)) == NatValue(w) * scale + NatValue(frac) by {
      NatValueAppend(w, frac);
    }
    DecimalArith(NatValue(w), NatValue(frac), scale, NatValue(Unpointed(t)),
                 Pow10(FractionDigits(t)), WholePart(t));
  }

  /** A pointed numeral split at its point: the digits before it, and the
      digits after it. */
  lemma PointedPieces(t: string)
    requires IsNumeral(t) && DigitRunEnd(t, 0) < |t|
    ensures var d := DigitRunEnd(t, 0);
            && d + 1 < |t| && DigitsIn(t[..d], 0, d) && DigitsIn(t[d + 1..], 0, |t| - d - 1)
            && Unpointed(t) == t[..d] + t[d + 1..]
            && FractionDigits(t) == |t| - d - 1
            && WholePart(t) == NatValue(t[..d])
  {
    var d := DigitRunEnd(t, 0);
    PointedDigits(t);
    assert DigitsIn(t[..d], 0, d);
  }

  /** A whole part plus a fraction below one, scaled back to the integer
      `n` it came from. */
  lemma DecimalArith(w: nat, f: nat, p: nat, n: nat, p': nat, w': nat)
    requires f < p && n == w * p + f && p' == p && w' == w
    ensures var v := w as real + f as real / p as real;
            v == n as real / p' as real && w' as real <= v < w' as real + 1.0
  {
    FractionBelowOne(f, p);
    ScaleFraction(w, f, p);
  }

  /** The value of two digit strings written one after the other. */
  lemma {:induction false} NatValueAppend(a: string, b: string)
    requires DigitsIn(a, 0, |a|) && DigitsIn(b, 0, |b|)
    ensures DigitsIn(a + b, 0, |a + b|)
    ensures NatValue(a + b) == NatValue(a) * Pow10(|b|) + NatValue(b)
    decreases |b|
  {
    var ab := a + b;
    assert DigitsIn(ab, 0, |ab|) by {
      forall t | 0 <= t < |ab|
        ensures IsDigit(ab[t])
      {
        if t >= |a| {
          assert ab[t] == b[t - |a|];
        }
      }
    }
    if |b| == 0 {
      assert ab == a;
    } else {
      var b' := b[..|b| - 1];
      assert DigitsIn(b', 0, |b'|);
      assert ab[..|ab| - 1] == a + b';
      assert ab[|ab| - 1] == b[|b| - 1];
      NatValueAppend(a, b');
      var c := DigitValue(b[|b| - 1]);
      assert NatValue(ab) == 10 * NatValue(a + b') + c;
      assert NatValue(b) == 10 * NatValue(b') + c;
      ShiftDigit(NatValue(a), NatValue(b'), Pow10(|b'|), c);
    }
  }

  lemma ShiftDigit(x: int, y: int, q: int, c: int)
    ensures 10 * (x * q + y) + c == x * (10 * q) + (10 * y + c)
  {
  }

  lemma ScaleFraction(w: nat, f: nat, p: nat)
    requires p > 0
    ensures w as real + f as real / p as real == (w * p + f) as real / p as real
  {
  }

  /** A numeral written with a point has the digits before the point as
      its whole-number part. */
  lemma {:induction false} PointedNumeral(t: string, d: nat)
    requires 0 < d && d + 1 < |t| && DigitsIn(t, 0, d) && t[d] == '.' && DigitsIn(t, d + 1, |t|)
    ensures IsNumeral(t)
    ensures DigitsIn(t[..d], 0, d) && WholePart(t) == NatValue(t[..d])
  {
    DigitRunEndUnique(t, 0, d);
  }

  /** The same, for a numeral cut out of a longer text. */
  lemma {:induction false} PointedSlice(s: string, j: nat, d: nat, e: nat)
    requires j < d && d + 1 < e <= |s| && DigitsIn(s, j, d) && s[d] == '.' && DigitsIn(s, d + 1, e)
    ensures IsNumeral(s[j..e])
    ensures DigitsIn(s[j..d], 0, d - j) && WholePart(s[j..e]) == NatValue(s[j..d])
  {
    var t := s[j..e];
    assert DigitsIn(t, 0, d - j) && t[d - j] == '.' && DigitsIn(t, d - j + 1, |t|);
    PointedNumeral(t, d - j);
    assert t[..d - j] == s[j..d];
  }

  lemma FractionBelowOne(n: nat, p: nat)
    requires n < p
    ensures 0.0 <= n as real / p as real < 1.0
  {
    assert n as real < p as real;
  }
}
