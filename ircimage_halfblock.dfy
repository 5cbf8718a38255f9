/** ircimage/halfblock.go: text-art cells made of the half-block characters ▀ and ▄,
    coloured either with 24-bit hexadecimal colours (0x04) or with the 99-colour IRC
    palette (0x03), and the encoding of a whole image of such cells. A Go panic in a
    cell encoder is an Err result here. */
module HalfBlock {
  import opened Common

  const UpperHalf: char := '\U{2580}'
  const LowerHalf: char := '\U{2584}'
  const CodeHexColor: char := '\U{0004}'
  const CodeColor: char := '\U{0003}'
  const CodeReset: char := '\U{000F}'

  /** image/color.NRGBA */
  datatype NRGBA = NRGBA(r: uint8, g: uint8, b: uint8, a: uint8)

  /** The two kinds of cell: HalfBlockHexColor and HalfBlockColorCode. */
  datatype Cell =
    | HexColor(topColor: NRGBA, bottomColor: NRGBA)
    | ColorCode(top: uint8, bottom: uint8)

  /** The panics of HalfBlockColorCode.IRC. */
  datatype Panic = InvalidTop(code: uint8) | InvalidBottom(code: uint8)

  /** HalfBlockImage: rows of cells; a row entry may be nil. */
  type Image = seq<seq<Option<Cell>>>

  /** colorHex: %02x%02x%02x of red, green and blue; alpha is dropped. */
  function ColorHex(c: NRGBA): (s: string)
    ensures |s| == 6 && forall ch <- s :: IsLowerHex(ch)
  {
    Hex2(c.r) + Hex2(c.g) + Hex2(c.b)
  }

  /** Reads back six hexadecimal digits as red, green and blue. */
  function ParseHex(s: string): (int, int, int)
    requires |s| == 6 && forall ch <- s :: IsLowerHex(ch)
  {
    (HexValue(s[0]) * 16 + HexValue(s[1]),
     HexValue(s[2]) * 16 + HexValue(s[3]),
     HexValue(s[4]) * 16 + HexValue(s[5]))
  }

  /** colorHex keeps red, green and blue exactly. */
  lemma ColorHexRoundTrip(c: NRGBA)
    ensures ParseHex(ColorHex(c)) == (c.r, c.g, c.b)
  {
    var s := ColorHex(c);
    assert s[0..2] == Hex2(c.r) && s[2..4] == Hex2(c.g) && s[4..6] == Hex2(c.b);
  }

  /** HalfBlockHexColor.IRC: 0x04, the top colour, a comma and the bottom colour. */
  function HexIRC(top: NRGBA, bottom: NRGBA): (s: string)
    ensures |s| == 14 && s[0] == CodeHexColor && s[7] == ','
    ensures s[1..7] == ColorHex(top) && s[8..14] == ColorHex(bottom)
  {
    [CodeHexColor] + ColorHex(top) + "," + ColorHex(bottom)
  }

  /** A hex cell reads back as its two colours: two cells encode alike exactly when
      their top and bottom colours agree on red, green and blue; alpha is the only thing
      lost. */
  lemma HexIRCKeepsColours(t1: NRGBA, b1: NRGBA, t2: NRGBA, b2: NRGBA)
    ensures ParseHex(HexIRC(t1, b1)[1..7]) == (t1.r, t1.g, t1.b)
    ensures ParseHex(HexIRC(t1, b1)[8..14]) == (b1.r, b1.g, b1.b)
    ensures HexIRC(t1, b1) == HexIRC(t2, b2) <==> t1.(a := 0) == t2.(a := 0) && b1.(a := 0) == b2.(a := 0)
  {
    ColorHexRoundTrip(t1);
    ColorHexRoundTrip(b1);
    if HexIRC(t1, b1) == HexIRC(t2, b2) {
      ColorHexRoundTrip(t2);
      ColorHexRoundTrip(b2);
    }
  }

  /** validColorCode: the codes 16 to 98 of the extended palette. */
  predicate ValidColorCode(code: uint8) {
    16 <= code <= 98
  }

  /** HalfBlockColorCode.IRC */
  function CodeIRC(top: uint8, bottom: uint8): (r: Result<string, Panic>)
    ensures r.Ok? <==>
      (top == 0 && bottom == 0)
      || (top > 0 && bottom == 0 && ValidColorCode(top))
      || (top == 0 && bottom > 0 && ValidColorCode(bottom))
      || (top > 0 && bottom > 0 && ValidColorCode(top) && ValidColorCode(bottom))
    ensures r.Err? && top > 0 && !ValidColorCode(top) ==> r.error == InvalidTop(top)
    ensures r.Err? && (top == 0 || ValidColorCode(top)) ==> r.error == InvalidBottom(bottom)
  {
    if top == 0 && bottom == 0 then
      Ok([CodeReset, ' '])
    else if top > 0 && bottom == 0 then
      if !ValidColorCode(top) then Err(InvalidTop(top))
      else Ok([CodeReset, CodeColor] + ZeroPad(top, 2) + [UpperHalf])
    else if bottom > 0 && top == 0 then
      if !ValidColorCode(bottom) then Err(InvalidBottom(bottom))
      else Ok([CodeReset, CodeColor] + ZeroPad(bottom, 2) + [LowerHalf])
    else if !ValidColorCode(top) then Err(InvalidTop(top))
    else if !ValidColorCode(bottom) then Err(InvalidBottom(bottom))
    else Ok([CodeColor] + ZeroPad(top, 2) + "," + ZeroPad(bottom, 2) + [UpperHalf])
  }

  /** The IRC method of either kind of cell. */
  function CellIRC(c: Cell): Result<string, Panic>
  {
    match c
    case HexColor(t, b) => Ok(HexIRC(t, b))
    case ColorCode(t, b) => CodeIRC(t, b)
  }

  function TwoDigits(s: string): int
    requires |s| == 2 && IsDigit(s[0]) && IsDigit(s[1])
  {
    (s[0] as int - '0' as int) * 10 + (s[1] as int - '0' as int)
  }

  /** An independent reader of the palette encoding: which top and bottom colour a
      cell's text shows (0 for none). */
  function DecodeCode(s: string): Option<(int, int)>
  {
    if s == [CodeReset, ' '] then Some((0, 0))
    else if |s| == 5 && s[0] == CodeReset && s[1] == CodeColor && IsDigit(s[2]) && IsDigit(s[3]) then
      if s[4] == UpperHalf then Some((TwoDigits(s[2..4]), 0))
      else if s[4] == LowerHalf then Some((0, TwoDigits(s[2..4])))
      else None
    else if |s| == 7 && s[0] == CodeColor && IsDigit(s[1]) && IsDigit(s[2]) && s[3] == ','
      && IsDigit(s[4]) && IsDigit(s[5]) && s[6] == UpperHalf then
      Some((TwoDigits(s[1..3]), TwoDigits(s[4..6])))
    else None
  }

  lemma TwoDigitPad(n: uint8)
    requires ValidColorCode(n)
    ensures |ZeroPad(n, 2)| == 2 && IsDigit(ZeroPad(n, 2)[0]) && IsDigit(ZeroPad(n, 2)[1])
    ensures TwoDigits(ZeroPad(n, 2)) == n
  {
    DecimalTwoDigits(n);
    DecimalRoundTrip(n);
    var d := Decimal(n);
    assert d[..1] == [d[0]];
    assert d[..0] == [];
  }

  /** Every palette cell that encodes without panicking can be read back to its top
      and bottom colours, so no two such cells share an encoding. */
  lemma CodeRoundTrip(top: uint8, bottom: uint8)
    requires CodeIRC(top, bottom).Ok?
    ensures DecodeCode(CodeIRC(top, bottom).value) == Some((top as int, bottom as int))
  {
    var s := CodeIRC(top, bottom).value;
    if top == 0 && bottom == 0 {
    } else if top > 0 && bottom == 0 {
      TwoDigitPad(top);
      assert s[2..4] == ZeroPad(top, 2);
    } else if top == 0 {
      TwoDigitPad(bottom);
      assert s[2..4] == ZeroPad(bottom, 2);
    } else {
      TwoDigitPad(top);
      TwoDigitPad(bottom);
      assert s[1..3] == ZeroPad(top, 2);
      assert s[4..6] == ZeroPad(bottom, 2);
    }
  }

  /** No cell's text contains a line break. */
  lemma CellHasNoNewline(c: Cell)
    requires CellIRC(c).Ok?
    ensures '\n' !in CellIRC(c).value
  {
    match c
    case HexColor(t, b) =>
      var s := HexIRC(t, b);
      assert forall i :: 0 <= i < 14 ==> s[i] != '\n' by {
        forall i | 0 <= i < 14 ensures s[i] != '\n' {
          if 1 <= i < 7 {
            assert s[i] == ColorHex(t)[i - 1];
          } else if 8 <= i {
            assert s[i] == ColorHex(b)[i - 8];
          }
        }
      }
    case ColorCode(t, b) =>
      var s := CodeIRC(t, b).value;
      if t > 0 {
        TwoDigitPad(t);
      }
      if b > 0 {
        TwoDigitPad(b);
      }
  }

  /** The loop over one row: the non-nil cells' texts, in order; the first panic
      stops the encoding. */
  function RowIRC(row: seq<Option<Cell>>): (r: Result<string, Panic>)
    ensures r.Ok? ==> '\n' !in r.value
  {
    if row == [] then Ok("")
    else
      var head: Result<string, Panic> :=
        if row[0].None? then Ok("") else CellIRC(row[0].value);
      if head.Err? then Err(head.error)
      else
        var rest := RowIRC(row[1..]);
        if rest.Err? then rest
        else
          if row[0].None? then Ok(head.value + rest.value)
          else
            CellHasNoNewline(row[0].value);
            Ok(head.value + rest.value)
  }

  /** A nil cell adds nothing to its row: appending one changes neither the text nor
      the panic. */
  lemma {:induction false} RowIRCSkipsNil(row: seq<Option<Cell>>)
    ensures RowIRC(row + [None]) == RowIRC(row)
    ensures RowIRC([None] + row) == RowIRC(row)
    decreases |row|
  {
    NilHeadSkipped(row);
    if row != [] {
      var longer := row + [None];
      assert longer[0] == row[0];
      assert longer[1..] == row[1..] + [None];
      RowIRCSkipsNil(row[1..]);
    } else {
      assert row + [None] == [None] + row;
    }
  }

  /** A row starting with a nil cell renders as the rest of the row. */
  lemma NilHeadSkipped(row: seq<Option<Cell>>)
    ensures RowIRC([None] + row) == RowIRC(row)
  {
    var longer := [None] + row;
    assert longer[0].None? && longer[1..] == row;
    var rest := RowIRC(row);
    if rest.Ok? {
      assert "" + rest.value == rest.value;
    }
  }

  /** The rows after the header, each followed by a line break. */
  function RowsIRC(img: Image): (r: Result<string, Panic>)
    ensures r.Ok? ==> Count(r.value, '\n') == |img|
  {
    if img == [] then Ok("")
    else
      var head := RowIRC(img[0]);
      if head.Err? then Err(head.error)
      else
        var rest := RowsIRC(img[1..]);
        if rest.Err? then rest
        else
          CountAppend(head.value + "\n", rest.value, '\n');
          CountAppend(head.value, "\n", '\n');
          CountAbsent(head.value, '\n');
          Ok(head.value + "\n" + rest.value)
  }

  /** HalfBlockImage.IRC: ".\n" and then every row followed by a line break. */
  function ImageIRC(img: Image): (r: Result<string, Panic>)
    ensures r.Ok? <==> RowsIRC(img).Ok?
    ensures r.Ok? ==> HasPrefix(r.value, ".\n") && r.value[2..] == RowsIRC(img).value
  {
    var rows := RowsIRC(img);
    if rows.Err? then Err(rows.error) else Ok(".\n" + rows.value)
  }

  /** The encoded image has one line break more than it has rows, so a client shows
      the header line and then one line per row. */
  lemma ImageLineCount(img: Image)
    requires ImageIRC(img).Ok?
    ensures Count(ImageIRC(img).value, '\n') == |img| + 1
  {
    var rows := RowsIRC(img).value;
    CountAppend(".\n", rows, '\n');
  }

  /** An image whose cells are all nil or all encode fine encodes without panic. */
  lemma {:induction false} RowOkWhenCellsOk(row: seq<Option<Cell>>)
    requires forall i :: 0 <= i < |row| && row[i].Some? ==> CellIRC(row[i].value).Ok?
    ensures RowIRC(row).Ok?
  {
    if row != [] {
      RowOkWhenCellsOk(row[1..]);
    }
  }
}
