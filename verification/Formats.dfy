/** What alt_log_printf.c prints for every format string, well-formed or not. */
module Formats {
  import opened CInt
  import opened Numerals
  import opened LogPrintf

  /** A character that does not end a directive. */
  predicate Between(c: char) {
    IsDigit(c) || c == '.' || c == 'l'
  }

  predicate AllBetween(s: string) {
    forall i :: 0 <= i < |s| ==> Between(s[i])
  }

  /** How many of the first characters do not end a directive. */
  function Middle(s: string): (n: nat)
    ensures n <= |s| && AllBetween(s[..n]) && (n < |s| ==> !Between(s[n]))
  {
    if s == "" || !Between(s[0]) then 0 else 1 + Middle(s[1..])
  }

  /** The digits that have no full stop before them, whatever the l's among them. */
  function WidthDigits(s: string): string {
    if s == "" then ""
    else
      var front, c := s[..|s| - 1], s[|s| - 1];
      WidthDigits(front) + if IsDigit(c) && '.' !in front then [c] else ""
  }

  /** The width they spell, or -1 when there are none. */
  function Width(s: string): int {
    if WidthDigits(s) == "" then -1 else Value(WidthDigits(s), 10)
  }

  predicate Known(c: char) {
    c in "diuoxXcs"
  }

  function ConvOf(c: char): (conv: Conv)
    requires Known(c)
    ensures conv.Letter() == c
  {
    match c
    case 'd' => Decimal
    case 'i' => Integer
    case 'u' => Unsigned
    case 'o' => Octal
    case 'x' => Hex
    case 'X' => UpperHex
    case 'c' => Character
    case _ => Text
  }

  /** What a directive prints: a per-cent sign at once; nothing for a letter that is not known; and
      otherwise the next argument, a 0 at once being the zero flag. */
  function Printed(mid: string, c: char, args: seq<Arg>): string {
    if mid == "" && c == '%' then "%"
    else if !Known(c) then ""
    else if mid != "" && mid[0] == '0' then Shown(ConvOf(c), true, Width(mid[1..]), args)
    else Shown(ConvOf(c), false, Width(mid), args)
  }

  /** What a format prints; a directive that does not end prints nothing. */
  function PrintedAll(fmt: string, args: seq<Arg>): string
    decreases |fmt|
  {
    if fmt == "" then ""
    else if fmt[0] != '%' then [fmt[0]] + PrintedAll(fmt[1..], args)
    else
      var n := Middle(fmt[1..]);
      if n + 1 == |fmt| then ""
      else
        var mid, c, rest := fmt[1..][..n], fmt[1..][n], fmt[1..][n + 1..];
        Printed(mid, c, args) + PrintedAll(rest, if Known(c) then Later(args) else args)
  }

  // ---------- the machine does it ----------

  /** A directive read up to s, from its first character after the zero flag on. */
  ghost predicate Read(m: Printer, s: string, end: Printer) {
    && end.state == OtherFmtChar && end.zero == m.zero && end.args == m.args && end.out == m.out
    && end.before == Width(s) && (end.after >= 0 <==> '.' in s)
  }

  lemma WidthNext(s: string, c: char)
    ensures Width(s + [c])
         == if IsDigit(c) && '.' !in s then Max(Width(s), 0) * 10 + DigitValue(c) else Width(s)
  {
    assert (s + [c])[..|s|] == s;
    var w := WidthDigits(s);
    if IsDigit(c) && '.' !in s {
      assert WidthDigits(s + [c]) == w + [c];
      assert (w + [c])[..|w|] == w;
      assert w == "" ==> Value(w, 10) == 0;
    } else {
      assert WidthDigits(s + [c]) == w + "" == w;
    }
  }

  lemma ReadNext(m: Printer, s: string, end: Printer, c: char)
    requires Read(m, s, end) && Between(c)
    ensures Read(m, s + [c], FeedOther(end, c))
  {
    WidthNext(s, c);
    assert '.' in s + [c] <==> '.' in s || c == '.';
  }

  lemma {:induction false} RunMiddle(m: Printer, s: string)
    requires m.state == OtherFmtChar && m.before == -1 && m.after == -1 && AllBetween(s)
    ensures Read(m, s, Run(m, s))
    decreases |s|
  {
    if s != "" {
      var front, c := s[..|s| - 1], s[|s| - 1];
      assert s == front + [c];
      RunMiddle(m, front);
      RunConcat(m, front, [c]);
      RunOne(Run(m, front), c);
      ReadNext(m, front, Run(m, front), c);
    }
  }

  /** The last character of a directive. */
  lemma FeedLast(m: Printer, c: char)
    requires m.state != InText && !Between(c) && (m.state == OtherFmtChar || c != '%')
    ensures var end := Feed(m, c);
            && end.state == InText && end.args == (if Known(c) then Later(m.args) else m.args)
            && end.out == m.out + if Known(c) then Shown(ConvOf(c), m.zero, m.before, m.args) else ""
  {
    if Known(c) {
      FeedLetter(m, ConvOf(c));
    } else {
      assert Feed(m, c) == FeedOther(m.(state := OtherFmtChar), c);
      assert m.out + "" == m.out;
    }
  }

  /** The machine after a per-cent sign. */
  function Opened(m: Printer): Printer {
    m.(state := FirstFmtChar, zero := false, long := false, before := -1, after := -1)
  }

  predicate ZeroFlag(mid: string) {
    mid != "" && mid[0] == '0'
  }

  /** The middle of a directive, its zero flag included. */
  lemma RunOpened(m: Printer, mid: string)
    requires AllBetween(mid) && mid != ""
    ensures var end := Run(Opened(m), mid);
            && end.state == OtherFmtChar && end.args == m.args && end.out == m.out
            && end.zero == ZeroFlag(mid) && end.before == Width(if ZeroFlag(mid) then mid[1..] else mid)
  {
    var other := Opened(m).(state := OtherFmtChar);
    if ZeroFlag(mid) {
      RunMiddle(other.(zero := true), mid[1..]);
    } else {
      RunMiddle(other, mid);
      assert Feed(Opened(m), mid[0]) == Feed(other, mid[0]);
    }
  }

  lemma RunDirective(m: Printer, mid: string, c: char)
    requires AllBetween(mid) && !Between(c)
    ensures var end := Run(Opened(m), mid + [c]);
            && end.state == InText && end.args == (if Known(c) then Later(m.args) else m.args)
            && end.out == m.out + Printed(mid, c, m.args)
  {
    RunConcat(Opened(m), mid, [c]);
    var before := Run(Opened(m), mid);
    RunOne(before, c);
    if mid == "" && c == '%' {
      assert Feed(Opened(m), c).out == m.out + "%";
    } else {
      if mid != "" {
        RunOpened(m, mid);
      }
      FeedLast(before, c);
    }
  }

  /** Every format string prints what it means, whatever the arguments: text stands for itself, each directive
      prints what it alone and the next argument say, one with an unknown letter prints nothing and uses no
      argument, and one that does not end prints nothing. */
  lemma {:induction false} EveryFormat(m: Printer, fmt: string)
    requires m.state == InText
    ensures Run(m, fmt).out == m.out + PrintedAll(fmt, m.args)
    decreases |fmt|
  {
    if fmt == "" {
      assert m.out + "" == m.out;
    } else if fmt[0] != '%' {
      EveryFormat(Feed(m, fmt[0]), fmt[1..]);
      Regroup(m.out, [fmt[0]], PrintedAll(fmt[1..], m.args));
    } else {
      var tail := fmt[1..];
      var n := Middle(tail);
      assert Feed(m, '%') == Opened(m);
      if n == |tail| {
        Unfinished(m, tail);
      } else {
        var mid, c, rest := tail[..n], tail[n], tail[n + 1..];
        RunOn(Opened(m), tail, n);
        RunDirective(m, mid, c);
        var next := Run(Opened(m), mid + [c]);
        EveryFormat(next, rest);
        Regroup(m.out, Printed(mid, c, m.args), PrintedAll(rest, next.args));
      }
    }
  }

  lemma Unfinished(m: Printer, tail: string)
    requires Middle(tail) == |tail|
    ensures Run(Opened(m), tail).out == m.out && m.out + "" == m.out
  {
    assert tail[..|tail|] == tail;
    if tail != "" {
      RunOpened(m, tail);
    }
  }

  lemma CutAt(s: string, n: nat)
    requires n < |s|
    ensures s == (s[..n] + [s[n]]) + s[n + 1..]
  {
  }

  lemma RunOn(m: Printer, s: string, n: nat)
    requires n < |s|
    ensures Run(m, s) == Run(Run(m, s[..n] + [s[n]]), s[n + 1..])
  {
    CutAt(s, n);
    RunConcat(m, s[..n] + [s[n]], s[n + 1..]);
  }

  // ---------- what that says of particular formats ----------

  /** For a format spelt from pieces it is what the pieces mean. */
  lemma PiecesAgree(ps: seq<Piece>, args: seq<Arg>)
    requires AllSpellable(ps)
    ensures PrintedAll(SpellAll(ps), args) == RenderAll(ps, args)
  {
    var m := Fresh(args, "");
    EveryFormat(m, SpellAll(ps));
    FormatPrints(m, ps);
    assert "" + PrintedAll(SpellAll(ps), args) == PrintedAll(SpellAll(ps), args);
    assert "" + RenderAll(ps, args) == RenderAll(ps, args);
  }

  /** An l changes nothing, wherever it stands. */
  lemma {:induction false} LongIsIgnored(s: string, t: string)
    ensures WidthDigits(s + "l" + t) == WidthDigits(s + t)
    decreases |t|
  {
    if t == "" {
      assert s + "l" + t == s + "l" && s + t == s;
      assert (s + "l")[..|s|] == s;
      assert WidthDigits(s) + "" == WidthDigits(s);
    } else {
      var front := t[..|t| - 1];
      LongIsIgnored(s, front);
      assert (s + "l" + t)[..|s + "l" + t| - 1] == s + "l" + front;
      assert (s + t)[..|s + t| - 1] == s + front;
    }
  }

  /** A directive with an unknown letter prints nothing and leaves its argument to the next one. */
  lemma UnknownLetter(m: Printer, mid: string, c: char)
    requires m.state == InText && AllBetween(mid) && !Between(c) && (mid != "" || c != '%')
    requires c !in {'d', 'i', 'u', 'o', 'x', 'X', 'c', 's'}
    ensures var end := Run(m, ['%'] + (mid + [c]));
            end.state == InText && end.out == m.out && end.args == m.args
  {
    assert (['%'] + (mid + [c]))[1..] == mid + [c];
    assert Feed(m, '%') == Opened(m);
    RunDirective(m, mid, c);
    assert m.out + "" == m.out;
  }
}
