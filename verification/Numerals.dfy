/** Numbers as text: what the integer printers of alt_log_printf.c and alt_printf.c write, and reading it
    back. */
module Numerals {
  import opened CInt

  /** The character the printers write for a digit value. */
  function DigitChar(d: nat, upper: bool): char
    requires d < 16
  {
    if d <= 9 then '0' + d as char
    else if upper then 'A' + (d - 10) as char
    else 'a' + (d - 10) as char
  }

  function DigitValue(c: char): nat {
    if '0' <= c <= '9' then (c - '0') as nat
    else if 'A' <= c <= 'F' then (c - 'A') as nat + 10
    else if 'a' <= c <= 'f' then (c - 'a') as nat + 10
    else 0
  }

  lemma DigitRoundTrip(d: nat, upper: bool)
    requires d < 16
    ensures DigitValue(DigitChar(d, upper)) == d
    ensures DigitChar(d, upper) != ' ' && DigitChar(d, upper) != '-'
    ensures DigitChar(d, upper) == '0' <==> d == 0
  {
  }

  /** The digit characters, written out. */
  lemma DigitCharIs(d: nat, upper: bool)
    requires d < 16
    ensures DigitChar(d, upper) == (if upper then "0123456789ABCDEF" else "0123456789abcdef")[d]
  {
  }

  /** A digit in the case asked for. */
  predicate InCase(c: char, upper: bool) {
    '0' <= c <= '9' || if upper then 'A' <= c <= 'F' else 'a' <= c <= 'f'
  }

  predicate AllInCase(s: string, upper: bool) {
    forall i :: 0 <= i < |s| ==> InCase(s[i], upper)
  }

  /** The number a row of digits stands for. */
  function Value(s: string, base: nat): nat {
    if s == "" then 0 else Value(s[..|s| - 1], base) * base + DigitValue(s[|s| - 1])
  }

  function Pow(base: nat, k: nat): nat {
    if k == 0 then 1 else base * Pow(base, k - 1)
  }

  lemma {:induction false} PowPositive(base: nat, k: nat)
    requires base > 0
    ensures Pow(base, k) > 0
  {
    if k > 0 {
      PowPositive(base, k - 1);
    }
  }

  lemma DivLess(v: nat, base: nat)
    requires base > 1 && v >= base
    ensures 0 < v / base < v
  {
    var q, r := DivMod(v, base);
    StepsOrder(0, q, base);
    QuotientBelow(v, q, r, base);
  }

  lemma QuotientBelow(v: nat, q: nat, r: nat, base: nat)
    requires base > 1 && v == q * base + r && q > 0
    ensures q < v
  {
    StepsOrder(base, 2, q);
  }

  /** Number of digits less one. */
  function TopIndex(v: nat, base: nat): nat
    requires base > 1
    decreases v
  {
    if v < base then 0 else DivLess(v, base); 1 + TopIndex(v / base, base)
  }

  lemma {:induction false} TopIndexIs(v: nat, base: nat)
    requires base > 1
    ensures v < Pow(base, TopIndex(v, base) + 1)
    ensures v > 0 ==> Pow(base, TopIndex(v, base)) <= v
    decreases v
  {
    if v >= base {
      var q, r := DivMod(v, base);
      DivLess(v, base);
      TopIndexIs(q, base);
      PlaceUp(v, q, r, base, Pow(base, TopIndex(q, base)));
    }
  }

  lemma PlaceUp(v: nat, q: nat, r: nat, base: nat, p: nat)
    requires base > 0 && v == q * base + r && r < base && p <= q < base * p
    ensures base * p <= v < base * (base * p)
  {
    StepsOrder(q, p, base);
    StepsOrder(base * p, q + 1, base);
  }

  lemma PlaceDigit(v: nat, p: nat, base: nat)
    requires p > 0 && v < base * p
    ensures v / p < base && v == v / p * p + v % p
  {
    var q, r := DivMod(v, p);
    StepsOrder(q, base, p);
  }

  /** The digits of v from place k down to 0. */
  function Places(v: nat, k: nat, base: nat, upper: bool): (s: string)
    requires 1 < base <= 16 && v < Pow(base, k + 1)
    ensures |s| == k + 1
    decreases k
  {
    var d, rest := TopPlace(v, k, base), v % Unit(base, k);
    if k == 0 then [DigitChar(d, upper)] else [DigitChar(d, upper)] + Places(rest, k - 1, base, upper)
  }

  /** The place value of place k. */
  function Unit(base: nat, k: nat): (p: nat)
    requires base > 0
    ensures p == Pow(base, k) > 0
  {
    PowPositive(base, k);
    Pow(base, k)
  }

  function TopPlace(v: nat, k: nat, base: nat): (d: nat)
    requires base > 1 && v < Pow(base, k + 1)
    ensures d < base
  {
    PlaceDigit(v, Unit(base, k), base);
    v / Unit(base, k)
  }

  /** v in digits, none of them superfluous. */
  function Digits(v: nat, base: nat, upper: bool): string
    requires 1 < base <= 16
  {
    TopIndexIs(v, base);
    Places(v, TopIndex(v, base), base, upper)
  }

  lemma {:induction false} ValueCons(c: char, s: string, base: nat)
    ensures Value([c] + s, base) == DigitValue(c) * Pow(base, |s|) + Value(s, base)
  {
    if s == "" {
      assert [c] + s == [c];
      assert [c][..0] == "";
    } else {
      var front := s[..|s| - 1];
      ValueCons(c, front, base);
      assert ([c] + s)[..|s|] == [c] + front;
      Carry(DigitValue(c), Pow(base, |front|), Value(front, base), base);
    }
  }

  lemma Carry(d: nat, p: nat, f: nat, base: nat)
    ensures (d * p + f) * base == d * (base * p) + f * base
  {
  }

  lemma {:induction false} PlacesRead(v: nat, k: nat, base: nat, upper: bool)
    requires 1 < base <= 16 && v < Pow(base, k + 1)
    ensures Value(Places(v, k, base, upper), base) == v
    decreases k
  {
    var q, r := DivMod(v, Unit(base, k));
    var d := TopPlace(v, k, base);
    DigitRoundTrip(d, upper);
    if k == 0 {
      ValueCons(DigitChar(d, upper), "", base);
      assert [DigitChar(d, upper)] + "" == [DigitChar(d, upper)];
    } else {
      var rest := Places(r, k - 1, base, upper);
      ValueCons(DigitChar(d, upper), rest, base);
      PlacesRead(r, k - 1, base, upper);
    }
  }

  /** Reading back the digits gives the number, and there is no leading zero but that of zero itself. */
  lemma DigitsRead(v: nat, base: nat, upper: bool)
    requires 1 < base <= 16
    ensures var s := Digits(v, base, upper);
            && Value(s, base) == v
            && |s| == TopIndex(v, base) + 1
            && s[0] != ' ' && s[0] != '-'
            && (s[0] == '0' <==> v == 0)
  {
    var k := TopIndex(v, base);
    TopIndexIs(v, base);
    PlacesRead(v, k, base, upper);
    PowPositive(base, k);
    PlaceDigit(v, Pow(base, k), base);
    DigitRoundTrip(v / Pow(base, k), upper);
    assert v / Pow(base, k) == 0 ==> v < Pow(base, k);
  }

  lemma {:induction false} PlacesInCase(v: nat, k: nat, base: nat, upper: bool)
    requires 1 < base <= 16 && v < Pow(base, k + 1)
    ensures AllInCase(Places(v, k, base, upper), upper)
    decreases k
  {
    assert InCase(DigitChar(TopPlace(v, k, base), upper), upper);
    if k > 0 {
      PlacesInCase(v % Unit(base, k), k - 1, base, upper);
    }
  }

  /** The letters among the digits are in the case asked for. */
  lemma DigitsInCase(v: nat, base: nat, upper: bool)
    requires 1 < base <= 16
    ensures AllInCase(Digits(v, base, upper), upper)
  {
    TopIndexIs(v, base);
    PlacesInCase(v, TopIndex(v, base), base, upper);
  }
}
