/** ircf/color.go: IRC formatting control codes as described by the "Formatting"
    page of the Modern IRC Client Protocol documents (bold 0x02, colour 0x03 followed
    by a decimal foreground and optional ",background", reset 0x0f). */
module Ircf {
  import opened Common

  const CodeBold: char := '\U{0002}'
  const CodeColor: char := '\U{0003}'
  const CodeReset: char := '\U{000F}'

  /** A text style. Methods take the style by value and return modified copies, so a
      style can be extended without changing the one it came from. A colour of 0
      means "no colour". */
  datatype Format = Fmt(bold: bool, fg: uint8, bg: uint8) {

    /** Format.Bold: a copy with bold set and both colours kept. */
    function Bold(): (f: Format)
      ensures f.bold && f.fg == fg && f.bg == bg
    {
      this.(bold := true)
    }

    /** Format.Color(fg, bg...): a copy with the foreground replaced; the background is
        replaced by the first extra argument when there is one and kept otherwise. */
    function Color(fg': uint8, bg': seq<uint8>): (f: Format)
      ensures f.bold == bold && f.fg == fg'
      ensures f.bg == if |bg'| > 0 then bg'[0] else bg
    {
      this.(fg := fg', bg := if |bg'| > 0 then bg'[0] else bg)
    }

    /** Format.Prefix: the control codes that switch this style on. */
    function Prefix(): (p: string)
    {
      (if bold then [CodeBold] else []) + ColorCodes()
    }

    /** The colour part of the prefix: the colour code, the decimal foreground and, with
        a background, a comma and the decimal background; nothing without a foreground. */
    function ColorCodes(): string
    {
      if fg > 0 then [CodeColor] + Decimal(fg) + (if bg > 0 then "," + Decimal(bg) else "") else ""
    }

    /** The prefix starts with the bold code exactly for a bold style, holds the colour
        code exactly when there is a foreground and a comma exactly when there is a
        background as well, and is made of codes, commas and digits only. */
    lemma PrefixCodes()
      ensures var p := Prefix();
        && ((|p| > 0 && p[0] == CodeBold) <==> bold)
        && (CodeColor in p <==> fg > 0)
        && (',' in p <==> fg > 0 && bg > 0)
        && CodeReset !in p
        && forall ch <- p :: ch == CodeBold || ch == CodeColor || ch == ',' || IsDigit(ch)
    {
      var b := if bold then [CodeBold] else [];
      var c := ColorCodes();
      assert forall ch <- c :: ch == CodeColor || ch == ',' || IsDigit(ch);
      assert fg > 0 ==> c[0] == CodeColor;
      assert fg > 0 && bg > 0 ==> c[1 + |Decimal(fg)|] == ',';
      assert b + c == if bold then [CodeBold] + c else c;
    }

    /** Format.Format: the message wrapped in this style and a reset. */
    function Format(msg: string): (out: string)
      ensures |out| == |Prefix()| + |msg| + 1
      ensures out[..|Prefix()|] == Prefix()
      ensures out[|Prefix()|..|out| - 1] == msg
      ensures out[|out| - 1] == CodeReset
    {
      Prefix() + msg + [CodeReset]
    }
  }

  /** The zero style. */
  const Plain := Fmt(false, 0, 0)

  /** Bold(): a bold copy of the zero style. */
  function Bold(): (f: Format)
    ensures f == Fmt(true, 0, 0)
  {
    Plain.Bold()
  }

  /** Color(fg, bg...) on the zero style. */
  function Color(fg: uint8, bg: seq<uint8>): (f: Format)
    ensures !f.bold && f.fg == fg && f.bg == (if |bg| > 0 then bg[0] else 0)
  {
    Plain.Color(fg, bg)
  }

  /** BoldWhite: bold with foreground 98 and no background. */
  const BoldWhite := Bold().Color(98, [])

  /** The zero style adds nothing but the reset. */
  lemma PlainFormat(msg: string)
    ensures Plain.Format(msg) == msg + [CodeReset]
  {
  }

  /** BoldWhite is bold, colour 98, no background: its prefix is 0x02 0x03 "98". */
  lemma BoldWhitePrefix()
    ensures BoldWhite == Fmt(true, 98, 0)
    ensures BoldWhite.Prefix() == [CodeBold, CodeColor, '9', '8']
  {
    assert Decimal(98) == "98" by {
      assert Decimal(9) == "9";
    }
  }

  /** The prefix is as long as its parts: one byte for bold, and for a colour one byte
      plus the decimal foreground, plus a comma and the decimal background. */
  lemma PrefixLength(f: Format)
    ensures |f.Prefix()| ==
      (if f.bold then 1 else 0)
      + (if f.fg > 0 then 1 + |Decimal(f.fg)| + (if f.bg > 0 then 1 + |Decimal(f.bg)| else 0) else 0)
  {
  }

  /** Styling adds control codes and digits only: it never adds a line break. */
  lemma FormatAddsNoLineBreak(f: Format, msg: string)
    requires '\n' !in msg
    ensures '\n' !in f.Format(msg)
  {
    var p := f.Prefix();
    f.PrefixCodes();
    assert f.Format(msg) == p + msg + [CodeReset];
    assert '\n' !in p;
  }

  /** Format is injective in the message: two messages in the same style give two
      different outputs. */
  lemma FormatInjective(f: Format, m1: string, m2: string)
    requires f.Format(m1) == f.Format(m2)
    ensures m1 == m2
  {
    var o := f.Format(m1);
    assert m1 == o[|f.Prefix()|..|o| - 1];
  }

  /** Styles compose as settings, not as a log: bolding twice is bolding once, bold and
      colour commute, a later colour with a background replaces an earlier one, a later
      colour without one keeps the earlier background, and re-applying the current
      foreground with no background changes nothing. */
  lemma StyleAlgebra(f: Format, a: uint8, xs: seq<uint8>, b: uint8, ys: seq<uint8>)
    ensures f.Bold().Bold() == f.Bold()
    ensures f.Bold().Color(b, ys) == f.Color(b, ys).Bold()
    ensures |ys| > 0 ==> f.Color(a, xs).Color(b, ys) == f.Color(b, ys)
    ensures f.Color(a, xs).Color(b, []) == f.Color(b, xs)
    ensures f.Color(f.fg, []) == f
  {
  }

  /** Making a style bold puts exactly the bold code in front of what the style
      without bold renders. */
  lemma BoldPrefix(f: Format, msg: string)
    ensures f.Bold().Prefix() == [CodeBold] + f.(bold := false).Prefix()
    ensures f.Bold().Format(msg) == [CodeBold] + f.(bold := false).Format(msg)
    ensures f.Bold().Prefix()[0] == CodeBold
  {
    BoldAddsCode(f);
    var p := f.(bold := false);
    var pm := p.Prefix() + msg + [CodeReset];
    calc {
      f.Bold().Format(msg);
      f.Bold().Prefix() + msg + [CodeReset];
      ([CodeBold] + p.Prefix()) + msg + [CodeReset];
      [CodeBold] + pm;
    }
  }

  /** The bold part of a prefix is the bold code alone. */
  lemma BoldAddsCode(f: Format)
    ensures f.Bold().Prefix() == [CodeBold] + f.(bold := false).Prefix()
  {
    var c := f.ColorCodes();
    assert f.Bold().ColorCodes() == c && f.(bold := false).ColorCodes() == c;
    assert f.(bold := false).Prefix() == [] + c;
  }

  /** The length of the run of digits a string starts with. */
  function DigitRun(s: string): (n: nat)
    ensures n <= |s|
  {
    if s == [] || !IsDigit(s[0]) then 0 else 1 + DigitRun(s[1..])
  }

  /** Digits followed by nothing or by a non-digit: the run is the digits. */
  lemma {:induction false} DigitRunOf(d: string, r: string)
    requires forall c <- d :: IsDigit(c)
    requires r == [] || !IsDigit(r[0])
    ensures DigitRun(d + r) == |d|
  {
    if d == [] {
      assert d + r == r;
    } else {
      assert (d + r)[0] == d[0] && d[0] in d;
      assert (d + r)[1..] == d[1..] + r;
      DigitRunOf(d[1..], r);
    }
  }

  /** Digits followed by nothing or by a comma: the digit run is where the tail starts. */
  lemma DigitsThenComma(d1: string, r1: string, d2: string, r2: string)
    requires forall c <- d1 :: IsDigit(c)
    requires forall c <- d2 :: IsDigit(c)
    requires r1 == [] || r1[0] == ','
    requires r2 == [] || r2[0] == ','
    requires d1 + r1 == d2 + r2
    ensures d1 == d2 && r1 == r2
  {
    DigitRunOf(d1, r1);
    DigitRunOf(d2, r2);
    assert d1 == (d1 + r1)[..|d1|] && d2 == (d2 + r2)[..|d2|];
    assert r1 == (d1 + r1)[|d1|..] && r2 == (d2 + r2)[|d2|..];
  }

  /** %d never writes one number the way it writes another. */
  lemma DecimalInjective(m: nat, n: nat)
    requires Decimal(m) == Decimal(n)
    ensures m == n
  {
    DecimalRoundTrip(m);
    DecimalRoundTrip(n);
  }

  /** The colour part of a prefix names its foreground and, with a foreground, its
      background. */
  lemma ColorPartDetermines(f: Format, g: Format)
    requires f.fg > 0 && g.fg > 0
    requires Decimal(f.fg) + (if f.bg > 0 then "," + Decimal(f.bg) else "")
          == Decimal(g.fg) + (if g.bg > 0 then "," + Decimal(g.bg) else "")
    ensures f.fg == g.fg && f.bg == g.bg
  {
    var rf := if f.bg > 0 then "," + Decimal(f.bg) else "";
    var rg := if g.bg > 0 then "," + Decimal(g.bg) else "";
    DigitsThenComma(Decimal(f.fg), rf, Decimal(g.fg), rg);
    DecimalInjective(f.fg, g.fg);
    if f.bg > 0 && g.bg > 0 {
      assert Decimal(f.bg) == rf[1..] && Decimal(g.bg) == rg[1..];
      DecimalInjective(f.bg, g.bg);
    }
  }

  /** A prefix starts with the bold code exactly for a bold style. */
  lemma BoldLeads(f: Format)
    ensures (|f.Prefix()| > 0 && f.Prefix()[0] == CodeBold) <==> f.bold
  {
    var c := f.ColorCodes();
    assert c == [] || c[0] == CodeColor;
    if f.bold {
      assert f.Prefix() == [CodeBold] + c;
    } else {
      assert f.Prefix() == c;
    }
  }

  /** The colour part is empty exactly without a foreground. */
  lemma ColorCodesEmpty(f: Format)
    ensures f.ColorCodes() == [] <==> f.fg == 0
  {
  }

  /** A prefix splits into its bold part and its colour part in one way only. */
  lemma PrefixSplits(f: Format, g: Format)
    requires f.Prefix() == g.Prefix()
    ensures f.bold == g.bold && f.ColorCodes() == g.ColorCodes()
  {
    BoldLeads(f);
    BoldLeads(g);
    var b := if f.bold then [CodeBold] else [];
    assert f.Prefix() == b + f.ColorCodes() && g.Prefix() == b + g.ColorCodes();
    assert f.ColorCodes() == f.Prefix()[|b|..] && g.ColorCodes() == g.Prefix()[|b|..];
  }

  /** Equal colour parts come from the same foreground, and with a foreground from the
      same background. */
  lemma ColorCodesDetermine(f: Format, g: Format)
    requires f.ColorCodes() == g.ColorCodes()
    ensures f.fg == g.fg && (f.fg == 0 || f.bg == g.bg)
  {
    ColorCodesEmpty(f);
    ColorCodesEmpty(g);
    if f.fg > 0 {
      ColorCodesTail(f);
      ColorCodesTail(g);
      ColorPartDetermines(f, g);
    }
  }

  /** After the colour code come the decimal colours. */
  lemma ColorCodesTail(f: Format)
    requires f.fg > 0
    ensures f.ColorCodes()[1..] == Decimal(f.fg) + (if f.bg > 0 then "," + Decimal(f.bg) else "")
  {
    var t := Decimal(f.fg) + (if f.bg > 0 then "," + Decimal(f.bg) else "");
    assert f.ColorCodes() == [CodeColor] + t;
  }

  /** Two styles switch on the same way exactly when they agree on bold and on the
      foreground, and, when there is a foreground, on the background: a background
      without a foreground is never written. */
  lemma PrefixDeterminesStyle(f: Format, g: Format)
    ensures f.Prefix() == g.Prefix() <==>
      f.bold == g.bold && f.fg == g.fg && (f.fg == 0 || f.bg == g.bg)
  {
    if f.Prefix() == g.Prefix() {
      PrefixSplits(f, g);
      ColorCodesDetermine(f, g);
    }
    if f.bold == g.bold && f.fg == g.fg && (f.fg == 0 || f.bg == g.bg) {
      assert f.ColorCodes() == g.ColorCodes();
    }
  }
}
