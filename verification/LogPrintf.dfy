/** The stripped-down printf of alt_log_printf.c. */
module LogPrintf {
  import opened CInt
  import opened Numerals

  // ---------- one integer ----------

  function Repeat(c: char, n: int): (s: string)
    ensures |s| == Max(n, 0)
    decreases Max(n, 0)
  {
    if n <= 0 then "" else [c] + Repeat(c, n - 1)
  }

  /** The number a word stands for, and its magnitude. */
  function Meaning(raw: Word, signed: bool): int {
    if signed && raw >= 0x8000_0000 then raw - 0x1_0000_0000 else raw
  }

  function Magnitude(raw: Word, signed: bool): Word {
    if signed && raw >= 0x8000_0000 then 0x1_0000_0000 - raw else raw
  }

  function SignText(raw: Word, signed: bool): string {
    if signed && raw >= 0x8000_0000 then "-" else ""
  }

  /** Sign and digits padded on the left to the width, with zeros after the sign or with blanks before it. */
  function Layout(sign: string, digits: string, zero: bool, width: int): string {
    var pad := width - |digits| - |sign|;
    if zero then sign + (Repeat('0', pad) + digits) else Repeat(' ', pad) + (sign + digits)
  }

  /** An integer as the printer lays it out. */
  function IntegerText(raw: Word, signed: bool, base: nat, upper: bool, zero: bool, width: int): string
    requires 1 < base <= 16
  {
    Layout(SignText(raw, signed), Digits(Magnitude(raw, signed), base, upper), zero, width)
  }

  /** Text as a reader takes it apart: blanks skipped, an optional sign, and the rest. */
  datatype Parts = Parts(negative: bool, digits: string)

  function Split(s: string): Parts {
    if s != "" && s[0] == ' ' then Split(s[1..])
    else if s != "" && s[0] == '-' then Parts(true, s[1..])
    else Parts(false, s)
  }

  function Read(s: string, base: nat): int {
    var parts := Split(s);
    if parts.negative then 0 - Value(parts.digits, base) else Value(parts.digits, base)
  }

  lemma {:induction false} ZerosRead(n: int, s: string, base: nat)
    ensures Value(Repeat('0', n) + s, base) == Value(s, base)
    decreases Max(n, 0)
  {
    if n <= 0 {
      assert Repeat('0', n) + s == s;
    } else {
      ZerosRead(n - 1, s, base);
      var rest := Repeat('0', n - 1) + s;
      ValueCons('0', rest, base);
      assert Repeat('0', n) + s == ['0'] + rest;
    }
  }

  lemma {:induction false} BlanksSplit(n: int, s: string)
    ensures Split(Repeat(' ', n) + s) == Split(s)
    decreases Max(n, 0)
  {
    if n <= 0 {
      assert Repeat(' ', n) + s == s;
    } else {
      BlanksSplit(n - 1, s);
      assert (Repeat(' ', n) + s)[1..] == Repeat(' ', n - 1) + s;
    }
  }

  lemma SignSplit(sign: string, body: string)
    requires sign == "-" || sign == ""
    requires body != "" && body[0] != ' ' && body[0] != '-'
    ensures Split(sign + body) == Parts(sign == "-", body)
  {
    assert sign == "" ==> sign + body == body;
    assert sign == "-" ==> (sign + body)[1..] == body;
  }

  lemma ZeroPadSplit(sign: string, digits: string, pad: int)
    requires sign == "-" || sign == ""
    requires digits != "" && digits[0] != ' ' && digits[0] != '-'
    ensures Split(sign + (Repeat('0', pad) + digits)) == Parts(sign == "-", Repeat('0', pad) + digits)
  {
    var body := Repeat('0', pad) + digits;
    assert body[0] == if pad > 0 then '0' else digits[0];
    SignSplit(sign, body);
  }

  lemma BlankPadSplit(sign: string, digits: string, pad: int)
    requires sign == "-" || sign == ""
    requires digits != "" && digits[0] != ' ' && digits[0] != '-'
    ensures Split(Repeat(' ', pad) + (sign + digits)) == Parts(sign == "-", digits)
  {
    SignSplit(sign, digits);
    BlanksSplit(pad, sign + digits);
  }

  /** Padding changes neither sign nor value. */
  lemma LayoutReads(sign: string, digits: string, zero: bool, width: int, base: nat)
    requires sign == "-" || sign == ""
    requires digits != "" && digits[0] != ' ' && digits[0] != '-'
    ensures Read(Layout(sign, digits, zero, width), base)
         == if sign == "-" then 0 - Value(digits, base) else Value(digits, base)
  {
    var pad := width - |digits| - |sign|;
    if zero {
      ZeroPadSplit(sign, digits, pad);
      ZerosRead(pad, digits, base);
    } else {
      BlankPadSplit(sign, digits, pad);
    }
  }

  /** The text is as wide as asked if it can be. */
  lemma LayoutWidth(sign: string, digits: string, zero: bool, width: int)
    ensures |Layout(sign, digits, zero, width)| == Max(width, |sign| + |digits|)
  {
  }

  /** What is printed for an integer reads back as that integer, in every base, width and padding; it is
      exactly as wide as asked or, if that is too narrow, as wide as the sign and the digits. */
  lemma IntegerReadsBack(raw: Word, signed: bool, base: nat, upper: bool, zero: bool, width: int)
    requires 1 < base <= 16
    ensures var text := IntegerText(raw, signed, base, upper, zero, width);
            var digits := TopIndex(Magnitude(raw, signed), base) + 1;
            && Read(text, base) == Meaning(raw, signed)
            && |text| == Max(width, |SignText(raw, signed)| + digits)
  {
    var mag, sign := Magnitude(raw, signed), SignText(raw, signed);
    DigitsRead(mag, base, upper);
    LayoutReads(sign, Digits(mag, base, upper), zero, width, base);
    LayoutWidth(sign, Digits(mag, base, upper), zero, width);
  }

  /** A text that is blanks, then a sign or none, then digits or other text. */
  ghost predicate Placed(text: string, blanks: nat, sign: string, shown: string) {
    && |text| == blanks + |sign| + |shown|
    && (forall i :: 0 <= i < blanks ==> text[i] == ' ')
    && text[blanks..blanks + |sign|] == sign && text[blanks + |sign|..] == shown
  }

  /** What is printed for an integer, character by character: blanks only in front, and none with the zero
      flag; then the minus sign if there is one; then digits in the case asked for, as many as there are and
      with the zero flag zeros in front of them. */
  lemma IntegerTextShape(raw: Word, signed: bool, base: nat, upper: bool, zero: bool, width: int)
      returns (blanks: nat, shown: string)
    requires 1 < base <= 16
    ensures Placed(IntegerText(raw, signed, base, upper, zero, width), blanks, SignText(raw, signed), shown)
    ensures shown != "" && AllInCase(shown, upper)
    ensures if zero then blanks == 0 else |shown| == TopIndex(Magnitude(raw, signed), base) + 1
  {
    var digits := Digits(Magnitude(raw, signed), base, upper);
    DigitsRead(Magnitude(raw, signed), base, upper);
    DigitsInCase(Magnitude(raw, signed), base, upper);
    blanks, shown := LayoutShape(SignText(raw, signed), digits, zero, width, upper);
  }

  lemma LayoutShape(sign: string, digits: string, zero: bool, width: int, upper: bool)
      returns (blanks: nat, shown: string)
    requires digits != "" && AllInCase(digits, upper)
    ensures Placed(Layout(sign, digits, zero, width), blanks, sign, shown)
    ensures shown != "" && AllInCase(shown, upper) && if zero then blanks == 0 else shown == digits
  {
    var pad := width - |digits| - |sign|;
    if zero {
      blanks, shown := 0, Repeat('0', pad) + digits;
      ZerosInCase(pad, digits, upper);
    } else {
      blanks, shown := Max(pad, 0), digits;
      BlanksPlaced(pad, sign, digits);
    }
  }

  lemma ZerosInCase(pad: int, digits: string, upper: bool)
    requires AllInCase(digits, upper)
    ensures AllInCase(Repeat('0', pad) + digits, upper)
  {
    forall i: nat | i < pad
      ensures Repeat('0', pad)[i] == '0'
    {
      RepeatAt('0', pad, i);
    }
  }

  lemma BlanksPlaced(pad: int, sign: string, shown: string)
    ensures Placed(Repeat(' ', pad) + (sign + shown), Max(pad, 0), sign, shown)
  {
    var blanks := Repeat(' ', pad);
    AllBlank(pad);
    Sliced(blanks, sign, shown);
  }

  lemma AllBlank(pad: int)
    ensures var blanks := Repeat(' ', pad);
            |blanks| == Max(pad, 0) && forall i :: 0 <= i < |blanks| ==> blanks[i] == ' '
  {
    forall i: nat | i < pad
      ensures Repeat(' ', pad)[i] == ' '
    {
      RepeatAt(' ', pad, i);
    }
  }

  lemma Sliced(s: string, t: string, u: string)
    ensures var text := s + (t + u);
            text[|s|..|s| + |t|] == t && text[|s| + |t|..] == u
  {
  }

  /** The number meant is the word read as a two's complement or an unsigned one. */
  lemma MeaningIs(raw: Word, signed: bool)
    ensures (Meaning(raw, signed) - raw) % 0x1_0000_0000 == 0
    ensures if signed then -0x8000_0000 <= Meaning(raw, signed) < 0x8000_0000
            else 0 <= Meaning(raw, signed) < 0x1_0000_0000
  {
  }

  /** Counting digits by repeated division; p comes out as the place value of the first. */
  method CountDigits(v: Word, base: nat) returns (p: nat, digitCount: nat)
    requires 1 < base <= 16
    ensures p == Pow(base, TopIndex(v, base)) && digitCount == TopIndex(v, base) + 1
    ensures 0 < p < 0x1_0000_0000
  {
    p, digitCount := 1, 1;
    ghost var left: nat := TopIndex(v, base);
    var vShrink := v / base;
    TopIndexStep(v, base);
    while vShrink > 0
      invariant digitCount >= 1 && p == Pow(base, digitCount - 1)
      invariant TopIndex(v, base) == digitCount - 1 + left
      invariant left == if vShrink > 0 then 1 + TopIndex(vShrink, base) else 0
      decreases vShrink
    {
      TopIndexStep(vShrink, base);
      PowNext(base, digitCount - 1);
      digitCount := digitCount + 1;
      p := p * base;
      left := left - 1;
      vShrink := vShrink / base;
    }
    TopPlaceFits(v, base);
  }

  lemma PowNext(base: nat, k: nat)
    ensures Pow(base, k) * base == Pow(base, k + 1)
  {
  }

  lemma TopPlaceFits(v: Word, base: nat)
    requires base > 1
    ensures 0 < Pow(base, TopIndex(v, base)) < 0x1_0000_0000
  {
    PowPositive(base, TopIndex(v, base));
    TopIndexIs(v, base);
  }

  lemma TopIndexStep(w: nat, base: nat)
    requires base > 1
    ensures TopIndex(w, base) == if w / base > 0 then 1 + TopIndex(w / base, base) else 0
    ensures w > 0 ==> w / base < w
  {
    var q, r := DivMod(w, base);
    StepsOrder(0, q, base);
    StepsOrder(q, 1, base);
    if w > 0 {
      DivShrinks(w, base);
    }
  }

  lemma DivShrinks(x: nat, base: nat)
    requires base > 1 && x > 0
    ensures x / base < x
  {
    if x >= base {
      DivLess(x, base);
    } else {
      DivModIs(x, base, 0, x);
    }
  }

  /** Digits from the highest place down. */
  method EmitDigits(v0: Word, p0: nat, base: nat, upper: bool) returns (text: string)
    requires 1 < base <= 16 && p0 == Pow(base, TopIndex(v0, base))
    ensures text == Digits(v0, base, upper)
  {
    var v: nat, p: nat := v0, p0;
    ghost var k: int := TopIndex(v0, base);
    TopIndexIs(v0, base);
    PowPositive(base, TopIndex(v0, base));
    text := "";
    while p != 0
      invariant k >= -1 && (k == -1 <==> p == 0)
      invariant k >= 0 ==> p == Pow(base, k) && v < Pow(base, k + 1)
      invariant k >= 0 ==> Digits(v0, base, upper) == text + Places(v, k, base, upper)
      invariant k == -1 ==> Digits(v0, base, upper) == text
      decreases k
    {
      text, v := EmitOne(text, v, p, k, base, upper);
      LowerPlace(base, k);
      p := p / base;
      k := k - 1;
    }
  }

  /** One digit, the one at place k. */
  method EmitOne(text: string, v: nat, p: nat, ghost k: nat, base: nat, upper: bool)
      returns (text': string, v': nat)
    requires 1 < base <= 16 && v < Pow(base, k + 1) && p == Pow(base, k) > 0
    ensures k > 0 ==> v' < Pow(base, k) && text' + Places(v', k - 1, base, upper) == text + Places(v, k, base, upper)
    ensures k == 0 ==> text' == text + Places(v, k, base, upper)
  {
    var d := v / p;
    assert p == Unit(base, k) && d == TopPlace(v, k, base);
    text' := text + [DigitChar(d, upper)];
    v' := v % p;
  }

  lemma LowerPlace(base: nat, k: nat)
    requires base > 1
    ensures k == 0 ==> Pow(base, k) / base == 0
    ensures k > 0 ==> Pow(base, k) / base == Pow(base, k - 1) > 0
  {
    if k == 0 {
      DivModIs(1, base, 0, 1);
    } else {
      PowPositive(base, k - 1);
      DivModIs(Pow(base, k), base, Pow(base, k - 1), 0);
    }
  }

  // ---------- the format string, as values ----------

  /** An argument; reading one that is missing or of the other kind, undefined in C, gives 0 or no text. */
  datatype Arg = Int(word: Word) | Str(text: string)

  function NextWord(args: seq<Arg>): Word {
    if args != [] && args[0].Int? then args[0].word else 0
  }

  function NextText(args: seq<Arg>): string {
    if args != [] && args[0].Str? then args[0].text else ""
  }

  function Later(args: seq<Arg>): seq<Arg> {
    if args == [] then [] else args[1..]
  }

  datatype State = InText | FirstFmtChar | OtherFmtChar

  /** Everything alt_log_private_printf keeps between two characters of the format; before and after are the
      width and precision, -1 while none has been seen. */
  datatype Printer = Printer(state: State, zero: bool, long: bool, before: int, after: int, args: seq<Arg>, out: string)

  function Fresh(args: seq<Arg>, out: string): Printer {
    Printer(InText, false, false, -1, -1, args, out)
  }

  /** A conversion writes its text, uses up an argument, and ends the directive. */
  function Wrote(m: Printer, text: string): Printer {
    m.(state := InText, args := Later(m.args), out := m.out + text)
  }

  function WroteInteger(m: Printer, signed: bool, base: nat, upper: bool): Printer
    requires 1 < base <= 16
  {
    Wrote(m, IntegerText(NextWord(m.args), signed, base, upper, m.zero, m.before))
  }

  predicate IsDigit(c: char) {
    '0' <= c <= '9'
  }

  /** A character of a directive after its first. */
  function FeedOther(m: Printer, c: char): Printer {
    if c == '.' then m.(after := 0)
    else if IsDigit(c) then
      if m.after < 0 then m.(before := (if m.before < 0 then 0 else m.before * 10) + DigitValue(c))
      else m.(after := m.after * 10 + DigitValue(c))
    else if c == 'l' then m.(long := true)
    else if c == 'd' || c == 'i' then WroteInteger(m, true, 10, false)
    else if c == 'u' then WroteInteger(m, false, 10, false)
    else if c == 'o' then WroteInteger(m, false, 8, false)
    else if c == 'x' then WroteInteger(m, false, 16, false)
    else if c == 'X' then WroteInteger(m, false, 16, true)
    else if c == 'c' then Wrote(m, Repeat(' ', m.before - 1) + [(NextWord(m.args) % 256) as char])
    else if c == 's' then Wrote(m, Repeat(' ', m.before - |NextText(m.args)|) + NextText(m.args))
    else m.(state := InText)
  }

  function Feed(m: Printer, c: char): Printer {
    match m.state
    case InText =>
      if c == '%' then m.(state := FirstFmtChar, zero := false, long := false, before := -1, after := -1)
      else m.(out := m.out + [c])
    case FirstFmtChar =>
      if c == '0' then m.(state := OtherFmtChar, zero := true)
      else if c == '%' then m.(state := InText, out := m.out + [c])
      else FeedOther(m.(state := OtherFmtChar), c)
    case OtherFmtChar => FeedOther(m, c)
  }

  function Run(m: Printer, fmt: string): Printer
    decreases |fmt|
  {
    if fmt == "" then m else Run(Feed(m, fmt[0]), fmt[1..])
  }

  // ---------- what a format means ----------

  datatype Conv = Decimal | Integer | Unsigned | Octal | Hex | UpperHex | Character | Text {
    predicate OfInteger() {
      !Character? && !Text?
    }

    predicate Signed() {
      Decimal? || Integer?
    }

    function Letter(): char {
      match this
      case Decimal => 'd'
      case Integer => 'i'
      case Unsigned => 'u'
      case Octal => 'o'
      case Hex => 'x'
      case UpperHex => 'X'
      case Character => 'c'
      case Text => 's'
    }

    function Base(): (b: nat)
      requires OfInteger()
      ensures 1 < b <= 16
    {
      match this
      case Decimal => 10
      case Integer => 10
      case Unsigned => 10
      case Octal => 8
      case Hex => 16
      case UpperHex => 16
    }
  }

  /** A piece of a format: a character standing for itself, a per-cent sign, or a directive; extra is what
      comes between the width and the letter. */
  datatype Piece =
    | Plain(c: char)
    | Percent
    | Directive(zero: bool, width: nat, extra: string, conv: Conv)

  /** Any number of l, and from the first full stop on precisions, with more of both: all of it is read and
      none of it changes what is printed. */
  predicate Ignored(extra: string) {
    extra == "" || (extra[0] == 'l' && Ignored(extra[1..])) || (extra[0] == '.' && AfterDot(extra[1..]))
  }

  predicate AfterDot(extra: string) {
    extra == "" || ((extra[0] in {'.', 'l'} || IsDigit(extra[0])) && AfterDot(extra[1..]))
  }

  predicate Spellable(p: Piece) {
    match p
    case Plain(c) => c != '%'
    case Percent => true
    case Directive(_, _, extra, _) => Ignored(extra)
  }

  predicate AllSpellable(ps: seq<Piece>) {
    forall p :: p in ps ==> Spellable(p)
  }

  /** The piece as it is written in the format string; width 0 is none. */
  function Spell(p: Piece): string {
    match p
    case Plain(c) => [c]
    case Percent => "%%"
    case Directive(zero, width, extra, conv) =>
      "%" + ((if zero then "0" else "")
             + ((if width > 0 then Digits(width, 10, false) else "") + (extra + [conv.Letter()])))
  }

  /** What the piece should print, given the arguments left. */
  function Render(p: Piece, args: seq<Arg>): string {
    match p
    case Plain(c) => [c]
    case Percent => "%"
    case Directive(zero, width, _, conv) => Shown(conv, zero, width, args)
  }

  /** An argument as it is shown: an integer laid out; a character or a text set to the right with blanks. */
  function Shown(conv: Conv, zero: bool, width: int, args: seq<Arg>): string {
    match conv
    case Character => Repeat(' ', width - 1) + [(NextWord(args) % 256) as char]
    case Text => Repeat(' ', width - |NextText(args)|) + NextText(args)
    case _ => IntegerText(NextWord(args), conv.Signed(), conv.Base(), conv.UpperHex?, zero, width)
  }

  function SpellAll(ps: seq<Piece>): string {
    if ps == [] then "" else Spell(ps[0]) + SpellAll(ps[1..])
  }

  function RenderAll(ps: seq<Piece>, args: seq<Arg>): string
    decreases |ps|
  {
    if ps == [] then ""
    else Render(ps[0], args) + RenderAll(ps[1..], if ps[0].Directive? then Later(args) else args)
  }

  lemma {:induction false} RunConcat(m: Printer, s: string, t: string)
    ensures Run(m, s + t) == Run(Run(m, s), t)
    decreases |s|
  {
    if s == "" {
      assert s + t == t;
    } else {
      RunConcat(Feed(m, s[0]), s[1..], t);
      assert (s + t)[1..] == s[1..] + t;
    }
  }

  lemma RunOne(m: Printer, c: char)
    ensures Run(m, [c]) == Feed(m, c)
  {
    assert Run(Feed(m, c), [c][1..]) == Feed(m, c);
  }

  /** Reading the width: the digits build up the number they were printed from. */
  lemma {:induction false} RunDigits(m: Printer, s: string)
    requires m.state == OtherFmtChar && m.before == -1 && m.after == -1
    requires s != "" && forall i :: 0 <= i < |s| ==> IsDigit(s[i])
    ensures Run(m, s) == m.(before := Value(s, 10))
    decreases |s|
  {
    var front, c := s[..|s| - 1], s[|s| - 1];
    assert s == front + [c];
    RunConcat(m, front, [c]);
    RunOne(Run(m, front), c);
    if front != "" {
      RunDigits(m, front);
    } else {
      assert Value(front, 10) == 0;
    }
  }

  lemma {:induction false} PlacesAreDigits(v: nat, k: nat)
    requires v < Pow(10, k + 1)
    ensures forall i :: 0 <= i <= k ==> IsDigit(Places(v, k, 10, false)[i])
    decreases k
  {
    assert TopPlace(v, k, 10) < 10;
    if k > 0 {
      PlacesAreDigits(v % Unit(10, k), k - 1);
    }
  }

  /** The width of a directive, from the first character after the per-cent sign and the zero flag. */
  lemma RunWidth(m: Printer, width: nat, zero: bool)
    requires m.state == (if zero then OtherFmtChar else FirstFmtChar) && m.before == -1 && m.after == -1
    requires width > 0
    ensures Run(m, Digits(width, 10, false)) == m.(state := OtherFmtChar, before := width)
  {
    var s := Digits(width, 10, false);
    DigitsRead(width, 10, false);
    TopIndexIs(width, 10);
    PlacesAreDigits(width, TopIndex(width, 10));
    var m' := m.(state := OtherFmtChar);
    RunDigits(m', s);
    assert Feed(m, s[0]) == Feed(m', s[0]);
  }

  /** A field no wider than its digit needs no padding, so no width is the same as width 0. */
  lemma NoWidth(raw: Word, signed: bool, base: nat, upper: bool, zero: bool, width: nat)
    requires 1 < base <= 16
    ensures IntegerText(raw, signed, base, upper, zero, if width > 0 then width else -1)
         == IntegerText(raw, signed, base, upper, zero, width)
  {
    if width == 0 {
      var mag, sign := Magnitude(raw, signed), SignText(raw, signed);
      DigitsRead(mag, base, upper);
      var digits := Digits(mag, base, upper);
      assert Repeat('0', -1 - |digits| - |sign|) == "" == Repeat('0', 0 - |digits| - |sign|);
      assert Repeat(' ', -1 - |digits| - |sign|) == "" == Repeat(' ', 0 - |digits| - |sign|);
    }
  }

  /** The same for every conversion. */
  lemma NoWidthShown(conv: Conv, zero: bool, width: nat, args: seq<Arg>)
    ensures Shown(conv, zero, if width > 0 then width else -1, args) == Shown(conv, zero, width, args)
  {
    if conv.OfInteger() {
      NoWidth(NextWord(args), conv.Signed(), conv.Base(), conv.UpperHex?, zero, width);
    }
  }

  lemma FeedLetter(m: Printer, conv: Conv)
    requires m.state != InText
    ensures Feed(m, conv.Letter()) == Wrote(m.(state := OtherFmtChar), Shown(conv, m.zero, m.before, m.args))
  {
    var m' := m.(state := OtherFmtChar);
    assert Feed(m, conv.Letter()) == FeedOther(m', conv.Letter());
    if conv.OfInteger() {
      FeedIntegerLetter(m', conv);
    }
  }

  lemma FeedIntegerLetter(m: Printer, conv: Conv)
    requires conv.OfInteger()
    ensures FeedOther(m, conv.Letter()) == WroteInteger(m, conv.Signed(), conv.Base(), conv.UpperHex?)
  {
  }

  /** The machine in the middle of a directive, its width read. */
  function InDirective(m: Printer, started: bool, zero: bool, width: nat): Printer {
    m.(state := if started then OtherFmtChar else FirstFmtChar, zero := zero, long := false,
       before := if width > 0 then width else -1, after := -1)
  }

  lemma RunZero(m: Printer, zero: bool)
    ensures Run(InDirective(m, false, false, 0), if zero then "0" else "") == InDirective(m, zero, zero, 0)
  {
    if zero {
      RunOne(InDirective(m, false, false, 0), '0');
    }
  }

  lemma RunWidthPart(m: Printer, zero: bool, width: nat)
    ensures Run(InDirective(m, zero, zero, 0), if width > 0 then Digits(width, 10, false) else "")
         == InDirective(m, zero || width > 0, zero, width)
  {
    if width > 0 {
      RunWidth(InDirective(m, zero, zero, 0), width, zero);
    }
  }

  /** The machines agree on what is printed once the letter comes. */
  predicate SameDirective(m: Printer, m': Printer) {
    m.state != InText && m'.state != InText && m'.zero == m.zero && m'.before == m.before
    && m'.args == m.args && m'.out == m.out
  }

  lemma {:induction false} RunAfterDot(m: Printer, extra: string)
    requires m.state == OtherFmtChar && m.after >= 0 && AfterDot(extra)
    ensures SameDirective(m, Run(m, extra))
    decreases |extra|
  {
    if extra != "" {
      RunAfterDot(Feed(m, extra[0]), extra[1..]);
    }
  }

  lemma {:induction false} RunExtra(m: Printer, extra: string)
    requires m.state != InText && Ignored(extra)
    ensures SameDirective(m, Run(m, extra))
    decreases |extra|
  {
    if extra != "" {
      if extra[0] == '.' {
        RunAfterDot(Feed(m, '.'), extra[1..]);
      } else {
        RunExtra(Feed(m, 'l'), extra[1..]);
      }
    }
  }

  lemma RunLetter(m: Printer, m': Printer, started: bool, zero: bool, width: nat, extra: string, conv: Conv)
    requires SameDirective(InDirective(m, started, zero, width), m')
    ensures var end := Run(m', [conv.Letter()]);
            && end.state == InText && end.args == Later(m.args)
            && end.out == m.out + Render(Directive(zero, width, extra, conv), m.args)
  {
    RunOne(m', conv.Letter());
    FeedLetter(m', conv);
    NoWidthShown(conv, zero, width, m.args);
  }

  /** One piece, from text to text. */
  lemma RunPiece(m: Printer, p: Piece)
    requires m.state == InText && Spellable(p)
    ensures var end := Run(m, Spell(p));
            && end.state == InText
            && end.args == (if p.Directive? then Later(m.args) else m.args)
            && end.out == m.out + Render(p, m.args)
  {
    match p
    case Plain(c) =>
      RunOne(m, c);
    case Percent =>
      RunConcat(m, "%", "%");
      RunOne(m, '%');
      RunOne(Feed(m, '%'), '%');
      assert Spell(p) == "%" + "%";
    case Directive(zero, width, extra, conv) =>
      var a, b := if zero then "0" else "", if width > 0 then Digits(width, 10, false) else "";
      var d := [conv.Letter()];
      RunOne(m, '%');
      RunConcat(m, "%", a + (b + (extra + d)));
      RunConcat(Feed(m, '%'), a, b + (extra + d));
      RunZero(m, zero);
      RunConcat(InDirective(m, zero, zero, 0), b, extra + d);
      RunWidthPart(m, zero, width);
      var m' := InDirective(m, zero || width > 0, zero, width);
      RunConcat(m', extra, d);
      RunExtra(m', extra);
      RunLetter(m, Run(m', extra), zero || width > 0, zero, width, extra, conv);
  }

  /** Every format built from plain text, per-cent signs and directives prints each piece as it should, whatever
      the arguments: no directive leaks its flags, width, precision or argument into the next. */
  lemma {:induction false} FormatPrints(m: Printer, ps: seq<Piece>)
    requires m.state == InText && AllSpellable(ps)
    ensures var end := Run(m, SpellAll(ps));
            end.state == InText && end.out == m.out + RenderAll(ps, m.args)
    decreases |ps|
  {
    if ps != [] {
      var mid := Run(m, Spell(ps[0]));
      RunPiece(m, ps[0]);
      RunConcat(m, Spell(ps[0]), SpellAll(ps[1..]));
      FormatPrints(mid, ps[1..]);
      Regroup(m.out, Render(ps[0], m.args), RenderAll(ps[1..], mid.args));
    }
  }

  lemma Regroup(s: string, t: string, u: string)
    ensures (s + t) + u == s + (t + u)
  {
  }

  /** What each integer directive shows. */
  lemma Conversions(zero: bool, width: int, args: seq<Arg>)
    ensures var w := NextWord(args);
            && Shown(Decimal, zero, width, args) == IntegerText(w, true, 10, false, zero, width)
            && Shown(Integer, zero, width, args) == IntegerText(w, true, 10, false, zero, width)
            && Shown(Unsigned, zero, width, args) == IntegerText(w, false, 10, false, zero, width)
            && Shown(Octal, zero, width, args) == IntegerText(w, false, 8, false, zero, width)
            && Shown(Hex, zero, width, args) == IntegerText(w, false, 16, false, zero, width)
            && Shown(UpperHex, zero, width, args) == IntegerText(w, false, 16, true, zero, width)
  {
  }

  /** Characters and texts stand at the right of their field, blanks before them. */
  lemma SetRight(zero: bool, width: int, args: seq<Arg>, conv: Conv)
    requires !conv.OfInteger()
    ensures var shown := if conv.Text? then NextText(args) else [(NextWord(args) % 256) as char];
            Placed(Shown(conv, zero, width, args), Max(width - |shown|, 0), "", shown)
  {
    var shown := if conv.Text? then NextText(args) else [(NextWord(args) % 256) as char];
    BlanksPlaced(width - |shown|, "", shown);
    assert "" + shown == shown;
  }

  /** How each directive is spelt. */
  lemma Spellings(conv: Conv)
    ensures [conv.Letter()] == match conv
                               case Decimal => "d" case Integer => "i" case Unsigned => "u" case Octal => "o"
                               case Hex => "x" case UpperHex => "X" case Character => "c" case Text => "s"
    ensures Spell(Directive(false, 0, "", conv)) == ['%', conv.Letter()]
    ensures Spell(Directive(true, 5, "l", conv)) == ['%', '0', '5', 'l', conv.Letter()]
  {
    assert Digits(5, 10, false) == "5" by {
      assert TopIndex(5, 10) == 0;
    }
  }

  /** How many of the pieces take an argument. */
  function Taking(ps: seq<Piece>): nat {
    if ps == [] then 0 else (if ps[0].Directive? then 1 else 0) + Taking(ps[1..])
  }

  /** Each directive shows the argument of its own number: after pieces that take n arguments, what is
      rendered is as if only the arguments from the n-th on had been given. */
  lemma {:induction false} DirectivesInOrder(ps: seq<Piece>, rest: seq<Piece>, args: seq<Arg>)
    requires Taking(ps) <= |args|
    ensures RenderAll(ps + rest, args) == RenderAll(ps, args) + RenderAll(rest, args[Taking(ps)..])
    decreases |ps|
  {
    if ps == [] {
      assert ps + rest == rest && args[0..] == args;
      assert RenderAll(ps, args) + RenderAll(rest, args) == RenderAll(rest, args);
    } else {
      var args' := if ps[0].Directive? then Later(args) else args;
      DirectivesInOrder(ps[1..], rest, args');
      assert (ps + rest)[1..] == ps[1..] + rest;
      assert args'[Taking(ps[1..])..] == args[Taking(ps)..];
      Regroup(Render(ps[0], args), RenderAll(ps[1..], args'), RenderAll(rest, args[Taking(ps)..]));
    }
  }

  /** The first argument left is the one shown. */
  lemma FirstArgument(w: Word, s: string, args: seq<Arg>)
    ensures NextWord([Int(w)] + args) == w && NextText([Str(s)] + args) == s
  {
  }

  // ---------- precision, by the standard ----------

  /** The digits of an integer conversion by section 7.21.6.1 of ISO/IEC 9899:2011: at least prec of them, and
      none for 0 with precision 0. */
  function StandardDigits(mag: Word, base: nat, upper: bool, prec: nat): string
    requires 1 < base <= 16
  {
    if mag == 0 && prec == 0 then ""
    else Repeat('0', prec - |Digits(mag, base, upper)|) + Digits(mag, base, upper)
  }

  /** The conversion by the standard, which ignores the zero flag where a precision is given. */
  function StandardText(raw: Word, signed: bool, base: nat, upper: bool, width: int, prec: nat): string
    requires 1 < base <= 16
  {
    Layout(SignText(raw, signed), StandardDigits(Magnitude(raw, signed), base, upper, prec), false, width)
  }

  /** Reading a precision and ignoring it makes no difference. */
  predicate PrecisionHarmless(raw: Word, signed: bool, base: nat, zero: bool, width: int, prec: nat)
    requires 1 < base <= 16
  {
    var mag := Magnitude(raw, signed);
    var n, s := TopIndex(mag, base) + 1, |SignText(raw, signed)|;
    && !(mag == 0 && prec == 0)
    && if prec <= n then (zero ==> width <= n + s) else zero && width == prec + s
  }

  lemma {:induction false} RepeatAt(c: char, n: int, i: nat)
    requires i < n
    ensures Repeat(c, n)[i] == c
    decreases i
  {
    if i > 0 {
      RepeatAt(c, n - 1, i - 1);
    }
  }

  /** A layout with blanks in front begins with one, and a layout without with the sign or the first digit. */
  lemma LayoutBegins(sign: string, digits: string, zero: bool, width: int)
    requires sign == "-" || sign == ""
    requires digits != "" && digits[0] != ' '
    ensures var text := Layout(sign, digits, zero, width);
            text != "" && (text[0] == ' ' <==> !zero && width > |sign| + |digits|)
  {
    var pad := width - |digits| - |sign|;
    if pad > 0 {
      RepeatAt(' ', pad, 0);
      RepeatAt('0', pad, 0);
    }
  }

  /** Without precision digits: blank padding against zero padding. */
  lemma ShortPrecision(sign: string, digits: string, zero: bool, width: int)
    requires sign == "-" || sign == ""
    requires digits != "" && digits[0] != ' '
    ensures Layout(sign, digits, zero, width) == Layout(sign, digits, false, width)
            <==> (zero ==> width <= |digits| + |sign|)
  {
    LayoutBegins(sign, digits, zero, width);
    LayoutBegins(sign, digits, false, width);
    if width <= |digits| + |sign| {
      assert Repeat('0', width - |digits| - |sign|) == "" == Repeat(' ', width - |digits| - |sign|);
      assert "" + digits == digits && "" + (sign + digits) == sign + digits;
    }
  }

  /** With some: the code's padding has to be zeros, and just as many. */
  lemma LongPrecision(sign: string, digits: string, zero: bool, width: int, more: nat)
    requires sign == "-" || sign == ""
    requires digits != "" && digits[0] != ' ' && more > 0
    ensures Layout(sign, digits, zero, width) == Layout(sign, Repeat('0', more) + digits, false, width)
            <==> zero && width == more + |digits| + |sign|
  {
    var long := Repeat('0', more) + digits;
    RepeatAt('0', more, 0);
    LayoutWidth(sign, digits, zero, width);
    LayoutWidth(sign, long, false, width);
    LayoutBegins(sign, digits, zero, width);
    LayoutBegins(sign, long, false, width);
    if width == |long| + |sign| {
      assert "" + (sign + long) == sign + long;
    } else if width > |long| + |sign| && !zero {
      BlanksEarlier(sign, digits, long, width);
    }
  }

  lemma BlanksEarlier(sign: string, digits: string, long: string, width: int)
    requires sign == "-" || sign == ""
    requires |digits| < |long| && long[0] != ' ' && width > |long| + |sign|
    ensures Layout(sign, digits, false, width) != Layout(sign, long, false, width)
  {
    var k := width - |long| - |sign|;
    RepeatAt(' ', width - |digits| - |sign|, k);
    assert Layout(sign, digits, false, width)[k] == ' ';
    assert (sign + long)[0] != ' ';
    assert Layout(sign, long, false, width)[k] == (sign + long)[0];
  }

  /** What the printer makes of an integer directive with a precision is what the standard says exactly when
      the precision is harmless: it asks for no more digits than there are, and the zero flag, if given,
      pads nothing; or the zero flag pads to just as many; and it is not precision 0 of 0. */
  lemma PrecisionIgnoredIff(raw: Word, signed: bool, base: nat, upper: bool, zero: bool, width: int, prec: nat)
    requires 1 < base <= 16
    ensures IntegerText(raw, signed, base, upper, zero, width) == StandardText(raw, signed, base, upper, width, prec)
            <==> PrecisionHarmless(raw, signed, base, zero, width, prec)
  {
    var mag, sign := Magnitude(raw, signed), SignText(raw, signed);
    var digits := Digits(mag, base, upper);
    DigitsRead(mag, base, upper);
    if mag == 0 && prec == 0 {
      OneDigit(base);
      ZeroOfPrecisionZero(sign, digits, zero, width);
    } else {
      PrecisionCases(sign, digits, zero, width, prec);
    }
  }

  lemma OneDigit(base: nat)
    requires base > 1
    ensures TopIndex(0, base) == 0
  {
  }

  lemma PrecisionCases(sign: string, digits: string, zero: bool, width: int, prec: nat)
    requires sign == "-" || sign == ""
    requires digits != "" && digits[0] != ' '
    ensures Layout(sign, digits, zero, width) == Layout(sign, Repeat('0', prec - |digits|) + digits, false, width)
            <==> if prec <= |digits| then (zero ==> width <= |digits| + |sign|) else zero && width == prec + |sign|
  {
    if prec <= |digits| {
      assert Repeat('0', prec - |digits|) + digits == digits;
      ShortPrecision(sign, digits, zero, width);
    } else {
      LongPrecision(sign, digits, zero, width, prec - |digits|);
    }
  }

  /** A digit is printed where there should be none. */
  lemma ZeroOfPrecisionZero(sign: string, digits: string, zero: bool, width: int)
    requires sign == "" && |digits| == 1 && digits[0] != ' '
    ensures Layout(sign, digits, zero, width) != Layout(sign, "", false, width)
  {
    var text := Layout(sign, "", false, width);
    LayoutWidth(sign, "", false, width);
    LayoutWidth(sign, digits, zero, width);
    if width > 0 {
      assert text == Repeat(' ', width);
      RepeatAt(' ', width, width - 1);
      assert Layout(sign, digits, zero, width)[width - 1] == digits[0];
    }
  }

  /** %.5d of 42 prints 42, where the standard has 00042. */
  lemma PrecisionLost()
    ensures IntegerText(42, true, 10, false, false, 0) == "42"
    ensures StandardText(42, true, 10, false, 0, 5) == "00042"
  {
    FortyTwo();
    assert Repeat('0', 3) == "000";
    assert Repeat(' ', -2) == "" == Repeat(' ', -5);
  }

  lemma FortyTwo()
    ensures Digits(42, 10, false) == "42"
  {
    assert TopIndex(4, 10) == 0;
    assert TopIndex(42, 10) == 1;
    assert Pow(10, 1) == 10;
    assert Places(2, 0, 10, false) == "2";
  }

  /** The format text of a precision. */
  lemma {:induction false} DigitsAfterDot(s: string)
    requires forall i :: 0 <= i < |s| ==> IsDigit(s[i])
    ensures AfterDot(s)
  {
    if s != "" {
      DigitsAfterDot(s[1..]);
    }
  }

  /** A directive with a precision, from its spelling to what is printed: what the standard says, exactly when
      ignoring the precision does no harm. */
  lemma DirectiveStandardIff(m: Printer, zero: bool, width: nat, prec: nat, conv: Conv)
    requires m.state == InText && conv.OfInteger()
    ensures var p := Directive(zero, width, "." + Digits(prec, 10, false), conv);
            var raw := NextWord(m.args);
            Run(m, Spell(p)).out
              == m.out + StandardText(raw, conv.Signed(), conv.Base(), conv.UpperHex?, width, prec)
            <==> PrecisionHarmless(raw, conv.Signed(), conv.Base(), zero, width, prec)
  {
    PrecisionSpelt(prec);
    RunPiece(m, Directive(zero, width, "." + Digits(prec, 10, false), conv));
    var raw := NextWord(m.args);
    PrecisionIgnoredIff(raw, conv.Signed(), conv.Base(), conv.UpperHex?, zero, width, prec);
    SameEnd(m.out, IntegerText(raw, conv.Signed(), conv.Base(), conv.UpperHex?, zero, width),
            StandardText(raw, conv.Signed(), conv.Base(), conv.UpperHex?, width, prec));
  }

  lemma PrecisionSpelt(prec: nat)
    ensures Ignored("." + Digits(prec, 10, false))
  {
    var digits := Digits(prec, 10, false);
    TopIndexIs(prec, 10);
    PlacesAreDigits(prec, TopIndex(prec, 10));
    DigitsAfterDot(digits);
    assert ("." + digits)[1..] == digits;
  }

  lemma SameEnd(s: string, t: string, u: string)
    ensures s + t == s + u <==> t == u
  {
    assert (s + t)[|s|..] == t && (s + u)[|s|..] == u;
  }

  /** A text by the standard: no more than prec characters of it. */
  function StandardString(text: string, width: int, prec: nat): string {
    var shown := if prec < |text| then text[..prec] else text;
    Repeat(' ', width - |shown|) + shown
  }

  lemma {:induction false} RepeatSplit(c: char, m: nat, n: nat)
    ensures Repeat(c, m + n) == Repeat(c, m) + Repeat(c, n)
    decreases m
  {
    if m == 0 {
      assert Repeat(c, 0) + Repeat(c, n) == Repeat(c, n);
    } else {
      RepeatSplit(c, m - 1, n);
      assert Repeat(c, m) == [c] + Repeat(c, m - 1);
    }
  }

  /** The precision of a text is ignored too: harmless exactly when it cuts nothing off, or when what the
      text has before its last prec characters is blanks, what remains being its first prec, and the
      width makes up for it. */
  lemma StringPrecisionIff(text: string, width: int, prec: nat)
    ensures Repeat(' ', width - |text|) + text == StandardString(text, width, prec)
            <==> |text| <= prec || (|text| <= width && text == Repeat(' ', |text| - prec) + text[..prec])
  {
    if prec < |text| <= width {
      var pad, more := Repeat(' ', width - |text|), Repeat(' ', |text| - prec);
      RepeatSplit(' ', width - |text|, |text| - prec);
      Regroup(pad, more, text[..prec]);
      SameEnd(pad, text, more + text[..prec]);
    }
  }

  /** What is printed before the digits. */
  function Lead(sign: string, digitCount: nat, zero: bool, width: int): string {
    var pad := width - digitCount - |sign|;
    if zero then sign + Repeat('0', pad) else Repeat(' ', pad) + sign
  }

  lemma LeadAndDigits(out: string, raw: Word, signed: bool, base: nat, upper: bool, zero: bool, width: int)
    requires 1 < base <= 16
    ensures var mag := Magnitude(raw, signed);
            (out + Lead(SignText(raw, signed), TopIndex(mag, base) + 1, zero, width)) + Digits(mag, base, upper)
            == out + IntegerText(raw, signed, base, upper, zero, width)
  {
    DigitsRead(Magnitude(raw, signed), base, upper);
  }

  // ---------- the printer ----------

  /** The variables of alt_log_private_printf, its remaining arguments and what the UART has been sent. */
  class LogPrinter {
    var state: State
    var zero: bool
    var long: bool
    var before: int
    var after: int
    var args: seq<Arg>
    var out: string

    function View(): Printer
      reads this
    {
      Printer(state, zero, long, before, after, args, out)
    }

    constructor (args: seq<Arg>)
      ensures View() == Fresh(args, "")
    {
      state, zero, long, before, after := InText, false, false, -1, -1;
      this.args, out := args, "";
    }

    /** alt_log_repchar. */
    method RepChar(c: char, times: int)
      modifies this`out
      ensures out == old(out) + Repeat(c, times)
    {
      var r := times;
      while r > 0
        invariant r <= Max(times, 0)
        invariant old(out) + Repeat(c, times) == out + Repeat(c, r)
      {
        out, r := out + [c], r - 1;
      }
    }

    method PrintText(s: string)
      modifies this`out
      ensures out == old(out) + s
    {
      for i := 0 to |s|
        invariant out == old(out) + s[..i]
      {
        out := out + [s[i]];
      }
    }

    /** What comes before the digits. */
    method PrintLead(sign: bool, digitCount: nat)
      modifies this`out
      ensures out == old(out) + Lead(if sign then "-" else "", digitCount, zero, before)
    {
      var pad := before - digitCount;
      if zero {
        if sign {
          out, pad := out + "-", pad - 1;
        }
        RepChar('0', pad);
      } else {
        if sign {
          pad := pad - 1;
        }
        RepChar(' ', pad);
        if sign {
          out := out + "-";
        }
      }
    }

    /** Sign, padding and digits. */
    method PrintNumber(v: Word, sign: bool, base: nat, upper: bool)
      requires 1 < base <= 16
      modifies this`out
      ensures var lead := Lead(if sign then "-" else "", TopIndex(v, base) + 1, zero, before);
              out == (old(out) + lead) + Digits(v, base, upper)
    {
      var p, digitCount := CountDigits(v, base);
      PrintLead(sign, digitCount);
      var text := EmitDigits(v, p, base, upper);
      out := out + text;
    }

    method StripSign(raw: Word, signed: bool) returns (v: Word, sign: bool)
      ensures v == Magnitude(raw, signed) && SignText(raw, signed) == if sign then "-" else ""
    {
      v := raw;
      sign := signed && v >= 0x8000_0000;
      if sign {
        v := 0x1_0000_0000 - v;
      }
    }

    /** The integer conversions, from fetching the argument to the last digit. */
    method PrintInteger(signed: bool, base: nat, upper: bool)
      requires 1 < base <= 16
      modifies this`state, this`args, this`out
      ensures View() == WroteInteger(old(View()), signed, base, upper)
    {
      var raw := NextWord(args);
      args := Later(args);
      var v, sign := StripSign(raw, signed);
      PrintNumber(v, sign, base, upper);
      state := InText;
      LeadAndDigits(old(out), raw, signed, base, upper, zero, before);
    }

    /** One character of a directive after its first. */
    method PutOther(c: char)
      modifies this
      ensures View() == FeedOther(old(View()), c)
    {
      if c == '.' {
        after := 0;
      } else if IsDigit(c) {
        if after < 0 {
          before := (if before < 0 then 0 else before * 10) + DigitValue(c);
        } else {
          after := after * 10 + DigitValue(c);
        }
      } else if c == 'l' {
        long := true;
      } else {
        Convert(c);
      }
    }

    /** The letter that ends a directive. */
    method Convert(c: char)
      requires c != '.' && !IsDigit(c) && c != 'l'
      modifies this
      ensures View() == FeedOther(old(View()), c)
    {
      if c == 'd' || c == 'i' {
        PrintInteger(true, 10, false);
      } else if c == 'u' {
        PrintInteger(false, 10, false);
      } else if c == 'o' {
        PrintInteger(false, 8, false);
      } else if c == 'x' {
        PrintInteger(false, 16, false);
      } else if c == 'X' {
        PrintInteger(false, 16, true);
      } else if c == 'c' {
        RepChar(' ', before - 1);
        out := out + [(NextWord(args) % 256) as char];
        args := Later(args);
      } else if c == 's' {
        var s := NextText(args);
        args := Later(args);
        RepChar(' ', before - |s|);
        PrintText(s);
      }
      state := InText;
    }

    method Put(c: char)
      modifies this
      ensures View() == Feed(old(View()), c)
    {
      match state
      case InText =>
        if c == '%' {
          state, zero, long, before, after := FirstFmtChar, false, false, -1, -1;
        } else {
          out := out + [c];
        }
      case FirstFmtChar =>
        if c == '0' {
          state, zero := OtherFmtChar, true;
        } else if c == '%' {
          state, out := InText, out + [c];
        } else {
          state := OtherFmtChar;
          PutOther(c);
        }
      case OtherFmtChar =>
        PutOther(c);
    }

    /** alt_log_private_printf. */
    method Print(fmt: string)
      modifies this
      ensures View() == Run(old(View()), fmt)
    {
      for i := 0 to |fmt|
        invariant Run(View(), fmt[i..]) == Run(old(View()), fmt)
      {
        Put(fmt[i]);
        assert fmt[i..][1..] == fmt[i + 1..];
      }
    }

    /** A format spelt from pieces prints what the pieces mean. */
    method PrintPieces(ps: seq<Piece>)
      requires state == InText && AllSpellable(ps)
      modifies this
      ensures state == InText && out == old(out) + RenderAll(ps, old(args))
    {
      FormatPrints(View(), ps);
      Print(SpellAll(ps));
    }
  }
}
