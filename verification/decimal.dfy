/** Decimal text: the digit strings that Python's f-string formatting produces
    for non-negative integers, and parsers that read them back. */
module Decimal {
  import opened Types

  predicate IsDigit(c: char) {
    '0' <= c <= '9'
  }

  predicate AllDigits(s: string) {
    forall i :: 0 <= i < |s| ==> IsDigit(s[i])
  }

  function DigitChar(d: nat): (c: char)
    requires d < 10
    ensures IsDigit(c)
    ensures DigitValue(c) == d
  {
    ('0' as int + d) as char
  }

  function DigitValue(c: char): (d: nat)
    requires IsDigit(c)
    ensures d < 10
  {
    c as int - '0' as int
  }

  /** `DigitChar` inverts `DigitValue`. */
  lemma DigitCharOfValue(c: char)
    requires IsDigit(c)
    ensures DigitChar(DigitValue(c)) == c
  {
  }

  /** The number a string of decimal digits denotes (most significant first). */
  function Value(s: string): (r: nat)
    requires AllDigits(s)
  {
    if s == [] then 0 else Value(s[..|s| - 1]) * 10 + DigitValue(s[|s| - 1])
  }

  /** Python's `f'{n:.0f}'` / `str(n)` of a non-negative integer: the shortest
      digit string, so a leading '0' only for zero itself. */
  function Show(n: nat): (r: string)
    ensures |r| >= 1 && AllDigits(r)
    ensures Value(r) == n
    ensures r[0] == '0' ==> r == "0"
    decreases n
  {
    if n < 10 then [DigitChar(n)]
    else
      var front := Show(n / 10);
      var r := front + [DigitChar(n % 10)];
      assert r[..|r| - 1] == front;
      r
  }

  function Pow10(k: nat): (p: nat)
    ensures p >= 1
  {
    if k == 0 then 1 else 10 * Pow10(k - 1)
  }

  /** `n` written with exactly `width` digits, zero-padded on the left. */
  function Pad(n: nat, width: nat): (r: string)
    requires n < Pow10(width)
    ensures |r| == width && AllDigits(r)
    ensures Value(r) == n
  {
    if width == 0 then []
    else
      var front := Pad(n / 10, width - 1);
      var r := front + [DigitChar(n % 10)];
      assert r[..|r| - 1] == front;
      r
  }

  /** A digit string denotes less than 10 to the power of its length. */
  lemma {:induction false} ValueBound(s: string)
    requires AllDigits(s)
    ensures Value(s) < Pow10(|s|)
    decreases |s|
  {
    if s != [] {
      ValueBound(s[..|s| - 1]);
    }
  }

  /** A digit string that does not start with '0' denotes a positive number. */
  lemma {:induction false} ValuePositive(s: string)
    requires |s| >= 1 && AllDigits(s) && s[0] != '0'
    ensures Value(s) >= 1
    decreases |s|
  {
    if |s| > 1 {
      ValuePositive(s[..|s| - 1]);
    }
  }

  /** `Show` is the only rendering without leading zeros: any such digit
      string is `Show` of its value. */
  lemma {:induction false} ShowUnique(s: string)
    requires |s| >= 1 && AllDigits(s)
    requires s[0] == '0' ==> |s| == 1
    ensures s == Show(Value(s))
    decreases |s|
  {
    var front, last := s[..|s| - 1], s[|s| - 1];
    if |s| > 1 {
      ValuePositive(front);
      ShowUnique(front);
      var n := Value(s);
      assert n == Value(front) * 10 + DigitValue(last);
      assert n / 10 == Value(front) && n % 10 == DigitValue(last);
      DigitCharOfValue(last);
      assert Show(n) == Show(Value(front)) + [DigitChar(DigitValue(last))];
      assert s == front + [last];
    } else {
      assert front == [];
      DigitCharOfValue(last);
      assert s == [last];
    }
  }

  /** `Pad` is the only rendering with exactly `|s|` digits. */
  lemma {:induction false} PadUnique(s: string)
    requires AllDigits(s)
    ensures Value(s) < Pow10(|s|)
    ensures s == Pad(Value(s), |s|)
    decreases |s|
  {
    ValueBound(s);
    if s != [] {
      var front, last := s[..|s| - 1], s[|s| - 1];
      PadUnique(front);
      var n := Value(s);
      assert n == Value(front) * 10 + DigitValue(last);
      assert n / 10 == Value(front) && n % 10 == DigitValue(last);
      DigitCharOfValue(last);
      assert Pad(n, |s|) == Pad(Value(front), |s| - 1) + [DigitChar(DigitValue(last))];
      assert s == front + [last];
    }
  }

  /** Length of the longest run of digits at the front of `s`. */
  function DigitRun(s: string): (k: nat)
    ensures k <= |s|
    ensures AllDigits(s[..k])
    ensures k < |s| ==> !IsDigit(s[k])
  {
    if s == [] || !IsDigit(s[0]) then 0
    else
      var k := 1 + DigitRun(s[1..]);
      assert s[..k] == [s[0]] + s[1..][..k - 1];
      k
  }

  /** Reads a non-empty run of digits off the front of `s`, returning its value
      and the unread remainder. A `canonical` reading also refuses a run
      longer than one digit that starts with '0', as `Show` never writes one. */
  function ParseNat(s: string, canonical: bool): (r: Option<(nat, string)>)
    ensures r.Some? ==> |r.value.1| < |s|
    ensures r.Some? ==> IsDigit(s[0]) && (|r.value.1| > 0 ==> !IsDigit(r.value.1[0]))
  {
    var k := DigitRun(s);
    if k == 0 || (canonical && k > 1 && s[0] == '0') then None
    else Some((Value(s[..k]), s[k..]))
  }

  lemma {:induction false} DigitRunOfDigits(digits: string, rest: string)
    requires AllDigits(digits)
    requires rest == [] || !IsDigit(rest[0])
    ensures DigitRun(digits + rest) == |digits|
    decreases |digits|
  {
    if digits == [] {
      assert digits + rest == rest;
    } else {
      assert (digits + rest)[1..] == digits[1..] + rest;
      DigitRunOfDigits(digits[1..], rest);
    }
  }

  /** `ParseNat` reads back exactly what `Show` wrote, provided no digit follows. */
  lemma {:induction false} ParseNatShow(n: nat, rest: string, canonical: bool)
    requires rest == [] || !IsDigit(rest[0])
    ensures ParseNat(Show(n) + rest, canonical) == Some((n, rest))
  {
    var s := Show(n) + rest;
    DigitRunOfDigits(Show(n), rest);
    assert s[..|Show(n)|] == Show(n);
    assert s[|Show(n)|..] == rest;
  }

  /** Conversely, a canonical reading only accepts what `Show` writes. */
  lemma {:induction false} ParseNatOnlyShow(s: string, n: nat, rest: string)
    requires ParseNat(s, true) == Some((n, rest))
    ensures s == Show(n) + rest
  {
    var k := DigitRun(s);
    ShowUnique(s[..k]);
    assert s == s[..k] + s[k..];
  }

  /** An EXIF RATIONAL as written in a camera tag string, `num/den`. */
  datatype Rational = Rational(num: nat, den: nat)

  /** The text `num/den` of `q`, followed by `rest`. */
  function RationalText(q: Rational, rest: string): (r: string)
  {
    Show(q.num) + "/" + Show(q.den) + rest
  }

  /** The text of a list of rationals, separated by commas. */
  function ShowRationals(qs: seq<Rational>): (r: string)
    requires |qs| >= 1
    decreases |qs|
  {
    if |qs| == 1 then RationalText(qs[0], [])
    else RationalText(qs[0], "," + ShowRationals(qs[1..]))
  }

  /** Both readings take the text of a list back to the list. */
  lemma {:induction false} ShowRationalsReadsBack(qs: seq<Rational>, canonical: bool)
    requires |qs| >= 1
    ensures ParseRationals(ShowRationals(qs), canonical) == Some(qs)
    decreases |qs|
  {
    if |qs| == 1 {
      ParseRationalsLast(qs[0], canonical);
      assert qs == [qs[0]];
    } else {
      var tail := ShowRationals(qs[1..]);
      ShowRationalsReadsBack(qs[1..], canonical);
      ParseRationalsCons(qs[0], tail, qs[1..], canonical);
      ListStep(qs, qs[0], qs[1..]);
      assert [qs[0]] + qs[1..] == qs;
    }
  }

  /** Reads `num/den` off the front of `s`. */
  function ParseRational(s: string, canonical: bool): (r: Option<(Rational, string)>)
    ensures r.Some? ==> |r.value.1| < |s|
  {
    var num := ParseNat(s, canonical);
    if num.None? || num.value.1 == [] || num.value.1[0] != '/' then None
    else
      var den := ParseNat(num.value.1[1..], canonical);
      if den.None? then None
      else Some((Rational(num.value.0, den.value.0), den.value.1))
  }

  /** Reads a non-empty comma-separated list of rationals that makes up the
      whole of `s`. */
  function ParseRationals(s: string, canonical: bool): (r: Option<seq<Rational>>)
    ensures r.Some? ==> |r.value| >= 1
    decreases |s|
  {
    match ParseRational(s, canonical)
    case None => None
    case Some((q, rest)) =>
      if rest == [] then Some([q])
      else if rest[0] != ',' then None
      else
        match ParseRationals(rest[1..], canonical)
        case None => None
        case Some(qs) => Some([q] + qs)
  }

  /** `ParseRational` reads back the text of a rational, provided no digit follows. */
  lemma {:induction false} ParseRationalShow(q: Rational, rest: string, canonical: bool)
    requires rest == [] || !IsDigit(rest[0])
    ensures ParseRational(RationalText(q, rest), canonical) == Some((q, rest))
  {
    var a, b := Show(q.num), Show(q.den);
    var tail := ['/'] + b + rest;
    var s := RationalText(q, rest);
    assert s == a + tail;
    ParseNatShow(q.num, tail, canonical);
    var after := b + rest;
    assert tail[1..] == after;
    ParseNatShow(q.den, rest, canonical);
    ParseRationalStep(s, q.num, tail, q.den, rest, canonical);
  }

  lemma ParseRationalStep(s: string, num: nat, tail: string, den: nat, rest: string, canonical: bool)
    requires ParseNat(s, canonical) == Some((num, tail))
    requires tail != [] && tail[0] == '/'
    requires ParseNat(tail[1..], canonical) == Some((den, rest))
    ensures ParseRational(s, canonical) == Some((Rational(num, den), rest))
  {
  }

  /** A canonical reading of one rational only accepts its text. */
  lemma {:induction false} ParseRationalOnlyShow(s: string, q: Rational, rest: string)
    requires ParseRational(s, true) == Some((q, rest))
    ensures s == RationalText(q, rest)
  {
    var tail := ParseNat(s, true).value.1;
    ParseNatOnlyShow(s, q.num, tail);
    ParseNatOnlyShow(tail[1..], q.den, rest);
    SlashJoin(s, Show(q.num), tail, Show(q.den), rest);
  }

  /** Splitting off a leading '/', stated over plain strings. */
  lemma SlashJoin(s: string, a: string, tail: string, b: string, rest: string)
    requires s == a + tail && tail != [] && tail[0] == '/' && tail[1..] == b + rest
    ensures s == a + "/" + b + rest
  {
    assert tail == "/" + (b + rest);
  }

  /** A canonical reading of a list only accepts `ShowRationals`' text. */
  lemma {:induction false} ParseRationalsOnlyShow(s: string, qs: seq<Rational>)
    requires ParseRationals(s, true) == Some(qs)
    ensures s == ShowRationals(qs)
    decreases |s|
  {
    var first := ParseRational(s, true).value;
    ParseRationalOnlyShow(s, first.0, first.1);
    ParseRationalsUnfold(s, qs);
    if first.1 == [] {
      assert qs == [first.0];
    } else {
      var tailText := first.1[1..];
      ParseRationalsOnlyShow(tailText, qs[1..]);
      ListStep(qs, first.0, qs[1..]);
      assert first.1 == "," + tailText;
    }
  }

  /** One step of a successful list reading: the first rational, then either
      the end of the text or a comma and the rest of the list. */
  lemma ParseRationalsUnfold(s: string, qs: seq<Rational>)
    requires ParseRationals(s, true) == Some(qs)
    ensures ParseRational(s, true).Some?
    ensures qs[0] == ParseRational(s, true).value.0
    ensures var rest := ParseRational(s, true).value.1;
      if rest == [] then qs == [qs[0]]
      else rest[0] == ',' && |qs| >= 2 && ParseRationals(rest[1..], true) == Some(qs[1..])
  {
  }

  /** `ShowRationals` on a list of two or more puts a comma after the first. */
  lemma ListStep(qs: seq<Rational>, q: Rational, tailQs: seq<Rational>)
    requires |tailQs| >= 1 && qs == [q] + tailQs
    ensures ShowRationals(qs) == RationalText(q, "," + ShowRationals(tailQs))
  {
    assert qs[0] == q && qs[1..] == tailQs;
  }

  /** A single rational that makes up the whole text is read back as a list of one. */
  lemma {:induction false} ParseRationalsLast(q: Rational, canonical: bool)
    ensures ParseRationals(RationalText(q, []), canonical) == Some([q])
  {
    ParseRationalShow(q, [], canonical);
  }

  /** Prepending `num/den,` to a readable list prepends one rational. */
  lemma {:induction false} ParseRationalsCons(q: Rational, tail: string, qs: seq<Rational>, canonical: bool)
    requires ParseRationals(tail, canonical) == Some(qs)
    ensures ParseRationals(RationalText(q, "," + tail), canonical) == Some([q] + qs)
  {
    var rest := "," + tail;
    ParseRationalShow(q, rest, canonical);
    assert rest[1..] == tail;
  }
}
