/** The %x conversion of alt_printf.c. */
module AltPrintf {
  import opened CInt
  import opened Numerals

  /** Four bits of v: v & (0xF << 4 * k), shifted back down. */
  function Nibble(v: nat, k: nat): nat {
    v / Unit(16, k) % 16
  }

  lemma {:induction false} PowGrows(base: nat, j: nat, k: nat)
    requires base > 0 && j <= k
    ensures Pow(base, j) <= Pow(base, k)
    decreases k
  {
    if j < k {
      PowGrows(base, j, k - 1);
      TimesGrows(base, Pow(base, k - 1));
    }
  }

  lemma TimesGrows(base: nat, p: nat)
    requires base > 0
    ensures p <= base * p
  {
    assert base * p == (base - 1) * p + p;
  }

  /** The top place is the only one whose power does not exceed the number while the next does. */
  lemma TopIndexUnique(v: nat, base: nat, k: nat)
    requires base > 1 && Pow(base, k) <= v < Pow(base, k + 1)
    ensures TopIndex(v, base) == k
  {
    var t := TopIndex(v, base);
    TopIndexIs(v, base);
    PowPositive(base, k);
    if t < k {
      PowGrows(base, t + 1, k);
    } else if t > k {
      PowGrows(base, k + 1, t);
    }
  }

  /** With nothing above place k, a zero nibble there means nothing at place k either. */
  lemma NibbleAtTop(v: nat, k: nat)
    requires v < Pow(16, k + 1)
    ensures Nibble(v, k) == 0 <==> v < Pow(16, k)
  {
    var p := Unit(16, k);
    var q, r := DivMod(v, p);
    StepsOrder(q, 16, p);
    StepsOrder(0, q, p);
  }

  /** The nibble at place k is the top place of what lies below place k + 1. */
  lemma NibbleIsPlace(v: nat, k: nat)
    ensures var rest := v % Unit(16, k + 1);
            Nibble(v, k) == TopPlace(rest, k, 16) && rest % Unit(16, k) == v % Unit(16, k)
  {
    var p := Unit(16, k);
    assert Unit(16, k + 1) == 16 * p;
    var q, r := DivMod(v, 16 * p);
    var d, s := DivMod(r, p);
    StepsOrder(d, 16, p);
    Regroup(v, q, d, s, p);
    DivModIs(v, p, 16 * q + d, s);
    DivModIs(16 * q + d, 16, q, d);
  }

  lemma Regroup(v: nat, q: nat, d: nat, s: nat, p: nat)
    requires v == q * (16 * p) + (d * p + s)
    ensures v == (16 * q + d) * p + s
  {
  }

  lemma WordFits(v: Word)
    ensures v < Pow(16, 8)
  {
    assert Pow(16, 4) == 0x1_0000;
    assert Pow(16, 8) == 16 * (16 * (16 * (16 * Pow(16, 4))));
  }

  /** The lowest n hexadecimal digits of v. */
  function LowDigits(v: nat, n: nat): string {
    if n == 0 then "" else [DigitChar(Nibble(v, n - 1), false)] + LowDigits(v, n - 1)
  }

  lemma {:induction false} LowDigitsArePlaces(v: nat, n: nat)
    requires n > 0
    ensures LowDigits(v, n) == Places(v % Unit(16, n), n - 1, 16, false)
    decreases n
  {
    NibbleIsPlace(v, n - 1);
    if n > 1 {
      LowDigitsArePlaces(v, n - 1);
    } else {
      assert LowDigits(v, 0) == "";
    }
  }

  /** A number whose top digit is at place k has k + 1 digits. */
  lemma AllDigits(v: nat, k: nat)
    requires Pow(16, k) <= v < Pow(16, k + 1)
    ensures Digits(v, 16, false) == LowDigits(v, k + 1)
  {
    TopIndexUnique(v, 16, k);
    DivModIs(v, Unit(16, k + 1), 0, v);
    LowDigitsArePlaces(v, k + 1);
  }

  /** The hexadecimal path: leading zero digits are skipped, and the rest written from the top. */
  method PrintHex(v: Word) returns (text: string)
    ensures text == Digits(v, 16, false)
    ensures Value(text, 16) == v && (text[0] == '0' <==> text == "0")
    ensures forall i :: 0 <= i < |text| ==> '0' <= text[i] <= '9' || 'a' <= text[i] <= 'f'
  {
    DigitsRead(v, 16, false);
    DigitsInCase(v, 16, false);
    if v == 0 {
      return "0";
    }
    var k := TopNibble(v);
    AllDigits(v, k);
    text := PrintDown(v, k);
  }

  /** Digits from place k down. */
  method PrintDown(v: Word, k: nat) returns (text: string)
    ensures text == LowDigits(v, k + 1)
  {
    text := "";
    var place: int := k;
    while place >= 0
      invariant -1 <= place
      invariant text + LowDigits(v, place + 1) == LowDigits(v, k + 1)
    {
      text := PrintDigit(text, v, place);
      place := place - 1;
    }
  }

  method PrintDigit(text: string, v: Word, k: nat) returns (text': string)
    ensures text' + LowDigits(v, k) == text + LowDigits(v, k + 1)
  {
    var digit := Nibble(v, k);
    text' := text + [DigitChar(digit, false)];
    Join(text, [DigitChar(digit, false)], LowDigits(v, k));
  }

  lemma Join(s: string, t: string, u: string)
    ensures (s + t) + u == s + (t + u)
  {
  }

  /** The first digit that is not zero, looking down from the top of the word. */
  method TopNibble(v: Word) returns (k: nat)
    requires v > 0
    ensures Pow(16, k) <= v < Pow(16, k + 1)
  {
    k := 7;
    WordFits(v);
    NibbleAtTop(v, k);
    while Nibble(v, k) == 0
      invariant v < Pow(16, k + 1)
      invariant Nibble(v, k) == 0 <==> v < Pow(16, k)
      decreases k
    {
      k := k - 1;
      NibbleAtTop(v, k);
    }
  }
}
