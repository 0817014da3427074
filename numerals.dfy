/** Decimal integers as text: what `operator<<` writes for an integer, and the C
    library's `atoi`, which reads one back. */
module Numerals {

  predicate IsDigit(ch: char) { '0' <= ch <= '9' }

  /** `isspace` in the "C" locale: space, tab, newline, vertical tab, form feed, carriage return. */
  predicate IsSpace(ch: char) { ch == ' ' || 9 <= ch as int <= 13 }

  predicate AllDigits(s: string) { forall i :: 0 <= i < |s| ==> IsDigit(s[i]) }

  function DigitChar(d: nat): (ch: char)
    requires d < 10
    ensures IsDigit(ch)
  {
    ('0' as int + d) as char
  }

  function DigitValue(ch: char): (d: nat)
    requires IsDigit(ch)
    ensures d < 10
  {
    ch as int - '0' as int
  }

  function Pow10(k: nat): (p: nat)
    ensures p >= 1
  {
    if k == 0 then 1 else 10 * Pow10(k - 1)
  }

  /** The value of a string of decimal digits, most significant first; 0 for the empty string. */
  function DigitsValue(ds: string): nat
    requires AllDigits(ds)
  {
    if ds == [] then 0 else 10 * DigitsValue(ds[..|ds| - 1]) + DigitValue(ds[|ds| - 1])
  }

  /** The decimal text of a natural number, without sign, padding or leading zeros. */
  function NaturalText(n: nat): (s: string)
    ensures |s| > 0 && AllDigits(s)
    ensures s[0] == '0' ==> s == "0"
  {
    if n < 10 then [DigitChar(n)] else NaturalText(n / 10) + [DigitChar(n % 10)]
  }

  /** The decimal text `operator<<` writes for an `int`: a minus sign for negative values. */
  function Decimal(n: int): (s: string)
    ensures |s| > 0 && (s[0] == '-' <==> n < 0)
    ensures forall i :: 0 <= i < |s| ==> IsDigit(s[i]) || (i == 0 && s[i] == '-')
  {
    if n < 0 then "-" + NaturalText(-n) else NaturalText(n)
  }

  /** The end of the run of digits that starts at `from`. */
  function DigitRunEnd(s: string, from: nat): (i: nat)
    requires from <= |s|
    decreases |s| - from
    ensures from <= i <= |s|
    ensures forall j :: from <= j < i ==> IsDigit(s[j])
    ensures i == |s| || !IsDigit(s[i])
  {
    if from < |s| && IsDigit(s[from]) then DigitRunEnd(s, from + 1) else from
  }

  /** The end of the run of white space that starts at `from`. */
  function SpaceRunEnd(s: string, from: nat): (i: nat)
    requires from <= |s|
    decreases |s| - from
    ensures from <= i <= |s|
    ensures forall j :: from <= j < i ==> IsSpace(s[j])
    ensures i == |s| || !IsSpace(s[i])
  {
    if from < |s| && IsSpace(s[from]) then SpaceRunEnd(s, from + 1) else from
  }

  /** C `atoi`: skips leading white space, takes an optional sign, then accumulates the
      digits that follow, most significant first; 0 when no digit follows. Overflow is not
      modelled (integers are unbounded). */
  function Atoi(s: string): int
  {
    AtoiFrom(s, 0)
  }

  function AtoiFrom(s: string, i: nat): int
    requires i <= |s|
    decreases |s| - i
  {
    if i == |s| then 0
    else if IsSpace(s[i]) then AtoiFrom(s, i + 1)
    else if s[i] == '-' then -(Accumulate(s, i + 1, 0) as int)
    else if s[i] == '+' then Accumulate(s, i + 1, 0)
    else Accumulate(s, i, 0)
  }

  /** `acc` with the digits of the run starting at `i` appended to it. */
  function Accumulate(s: string, i: nat, acc: nat): nat
    requires i <= |s|
    decreases |s| - i
  {
    if i < |s| && IsDigit(s[i]) then Accumulate(s, i + 1, 10 * acc + DigitValue(s[i])) else acc
  }

  /** The value `atoi` is documented to return, stated on the runs of white space and of
      digits rather than as a scan. */
  function AtoiValue(s: string): int
  {
    var i := SpaceRunEnd(s, 0);
    if i < |s| && (s[i] == '-' || s[i] == '+') then
      var v: int := DigitsValue(s[i + 1..DigitRunEnd(s, i + 1)]);
      if s[i] == '-' then -v else v
    else
      DigitsValue(s[i..DigitRunEnd(s, i)])
  }

  /** Accumulating the digits `s[from..to]` from position `i` on, starting from the value
      of those before `i`, gives the value of the whole run. */
  lemma {:induction false} AccumulateRun(s: string, from: nat, to: nat, i: nat)
    requires from <= i <= to <= |s|
    requires forall j :: from <= j < to ==> IsDigit(s[j])
    requires to == |s| || !IsDigit(s[to])
    ensures AllDigits(s[from..i]) && AllDigits(s[from..to])
    ensures Accumulate(s, i, DigitsValue(s[from..i])) == DigitsValue(s[from..to])
    decreases |s| - i
  {
    assert AllDigits(s[from..i]);
    if i < to {
      assert s[from..i + 1][..i - from] == s[from..i];
      AccumulateRun(s, from, to, i + 1);
    }
  }

  /** The scan agrees with the documented value. */
  lemma {:induction false} AtoiFromAgrees(s: string, i: nat)
    requires i <= |s| && forall j :: 0 <= j < i ==> IsSpace(s[j])
    ensures AtoiFrom(s, i) == AtoiValue(s)
    decreases |s| - i
  {
    if i < |s| && IsSpace(s[i]) {
      AtoiFromAgrees(s, i + 1);
    } else {
      assert SpaceRunEnd(s, 0) == i by { SpaceRunFrom(s, 0, i); }
      if i < |s| && (s[i] == '-' || s[i] == '+') {
        AccumulateRun(s, i + 1, DigitRunEnd(s, i + 1), i + 1);
      } else if i < |s| {
        AccumulateRun(s, i, DigitRunEnd(s, i), i);
      }
    }
  }

  lemma {:induction false} SpaceRunFrom(s: string, from: nat, i: nat)
    requires from <= i <= |s| && forall j :: from <= j < i ==> IsSpace(s[j])
    requires i == |s| || !IsSpace(s[i])
    ensures SpaceRunEnd(s, from) == i
    decreases i - from
  {
    if from < i {
      SpaceRunFrom(s, from + 1, i);
    }
  }

  lemma AtoiAgrees(s: string)
    ensures Atoi(s) == AtoiValue(s)
  {
    AtoiFromAgrees(s, 0);
  }

  lemma {:induction false} NaturalTextValue(n: nat)
    ensures DigitsValue(NaturalText(n)) == n
  {
    if n >= 10 {
      NaturalTextValue(n / 10);
      var s := NaturalText(n);
      assert s[..|s| - 1] == NaturalText(n / 10);
    }
  }

  /** `atoi` reads a run of digits back, whatever non-digit follows it. */
  lemma AtoiOfDigits(ds: string, tail: string)
    requires AllDigits(ds)
    requires tail == [] || !IsDigit(tail[0])
    requires ds == [] && tail != [] ==> !IsSpace(tail[0]) && tail[0] != '-' && tail[0] != '+'
    ensures Atoi(ds + tail) == DigitsValue(ds)
  {
    var s := ds + tail;
    if s != [] {
      assert s[0] == if ds != [] then ds[0] else tail[0];
    }
    assert |ds| == |s| || s[|ds|] == tail[0];
    AccumulateRun(s, 0, |ds|, 0);
    assert s[0..|ds|] == ds;
  }

  /** `atoi` inverts `operator<<` on integers. */
  lemma AtoiDecimal(n: int)
    ensures Atoi(Decimal(n)) == n
  {
    if n < 0 {
      AtoiNegated(NaturalText(-n));
      NaturalTextValue(-n);
    } else {
      AtoiOfDigits(NaturalText(n), []);
      assert NaturalText(n) + [] == NaturalText(n);
      NaturalTextValue(n);
    }
  }

  /** `atoi` reads a minus sign followed by digits as the negated value of the digits. */
  lemma AtoiNegated(t: string)
    requires AllDigits(t)
    ensures Atoi("-" + t) == -(DigitsValue(t) as int)
  {
    var s := "-" + t;
    assert s[0] == '-' && !IsSpace(s[0]);
    AccumulateRun(s, 1, |s|, 1);
    assert s[1..|s|] == t && s[1..1] == [];
  }

  lemma ModOfDecomposition(a: int, b: int, q: int, r: int)
    requires b > 0 && a == q * b + r && 0 <= r < b
    ensures a % b == r
  {
    var d := a / b - q;
    assert (a / b) * b + a % b == a;
    assert d * b == (a / b) * b - q * b;
    assert d * b == r - a % b;
    assert d >= 1 ==> d * b >= b;
    assert d <= -1 ==> d * b <= -b;
  }

  lemma DigitsValueAppend(ds: string, ch: char)
    requires AllDigits(ds) && IsDigit(ch)
    ensures AllDigits(ds + [ch]) && DigitsValue(ds + [ch]) == 10 * DigitsValue(ds) + DigitValue(ch)
  {
    assert (ds + [ch])[..|ds|] == ds;
  }

  lemma ShiftMod(v: nat, d: nat, b: nat)
    requires d < 10 && b >= 1
    ensures (10 * v + d) % (10 * b) == 10 * (v % b) + d
  {
    var q, r := v / b, v % b;
    assert v == q * b + r;
    assert 10 * v + d == q * (10 * b) + (10 * r + d);
    assert 10 * r + d < 10 * b;
    ModOfDecomposition(10 * v + d, 10 * b, q, 10 * r + d);
  }

  /** Dropping the most significant digit of a digit string keeps its value modulo
      the next lower power of ten. */
  lemma {:induction false} DropLeadingDigit(ds: string)
    requires |ds| > 0 && AllDigits(ds)
    ensures AllDigits(ds[1..]) && DigitsValue(ds[1..]) == DigitsValue(ds) % Pow10(|ds| - 1)
  {
    if |ds| > 1 {
      var p, last := ds[..|ds| - 1], ds[|ds| - 1];
      DropLeadingDigit(p);
      assert ds[1..] == p[1..] + [last];
      assert ds == p + [last];
      DigitsValueAppend(p[1..], last);
      DigitsValueAppend(p, last);
      ShiftMod(DigitsValue(p), DigitValue(last), Pow10(|p| - 1));
    }
  }

  /** Digits with a non-zero leading digit have a positive value. */
  lemma {:induction false} PositiveValue(ds: string)
    requires ds != [] && AllDigits(ds) && ds[0] != '0'
    ensures DigitsValue(ds) >= 1
  {
    if |ds| > 1 {
      var init := ds[..|ds| - 1];
      assert init[0] == ds[0];
      PositiveValue(init);
    }
  }

  /** Digits without padding are the decimal text of their own value. */
  lemma {:induction false} NaturalTextOfDigits(ds: string)
    requires ds != [] && AllDigits(ds) && (ds[0] == '0' ==> |ds| == 1)
    ensures NaturalText(DigitsValue(ds)) == ds
  {
    var v := DigitsValue(ds);
    var last := ds[|ds| - 1];
    var d := DigitValue(last);
    assert DigitChar(d) == last;
    if |ds| == 1 {
      assert ds[..|ds| - 1] == [];
      assert DigitsValue(ds[..|ds| - 1]) == 0;
      assert v == d;
      assert ds == [last];
    } else {
      var init := ds[..|ds| - 1];
      assert init[0] == ds[0];
      PositiveValue(init);
      NaturalTextOfDigits(init);
      assert v == 10 * DigitsValue(init) + d;
      assert v / 10 == DigitsValue(init) && v % 10 == d;
      assert ds == init + [last];
    }
  }
}
