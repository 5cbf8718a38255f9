/** ircimage/imagehex.go: folds a picture's rows in pairs into a grid of half-block
    cells coloured with hexadecimal colours, the upper pixel as the top half and the
    lower pixel as the bottom half. */
module ImageHex {
  import opened Common
  import opened HalfBlock

  /** image.NRGBA: a rectangle [minX, minX + width) x [minY, minY + height) and its
      pixels, row by row. */
  datatype Picture = Picture(minX: int, minY: int, width: nat, height: nat, pix: seq<seq<NRGBA>>)
  {
    predicate Valid() {
      |pix| == height && forall row <- pix :: |row| == width
    }

    /** NRGBAAt: the pixel at absolute coordinates (x, y), or transparent black for a
        point outside the rectangle. */
    function At(x: int, y: int): NRGBA
      requires Valid()
    {
      if minX <= x < minX + width && minY <= y < minY + height then
        assert pix[y - minY] in pix;
        pix[y - minY][x - minX]
      else
        NRGBA(0, 0, 0, 0)
    }
  }

  /** The cell that row r, column x of the output holds. */
  function CellAt(img: Picture, r: int, x: int): Option<Cell>
    requires img.Valid()
  {
    Some(HexColor(img.At(x, 2 * r), img.At(x, 2 * r + 1)))
  }

  /** Row r of the output. */
  function RowAt(img: Picture, r: int): seq<Option<Cell>>
    requires img.Valid()
  {
    seq(img.width, x => CellAt(img, r, x))
  }

  /** The whole output: height / 2 rows of width cells. */
  function Folded(img: Picture): Image
    requires img.Valid()
  {
    seq(img.height / 2, r => RowAt(img, r))
  }

  /** ConvertImageWithHexColors: an error for an odd height; otherwise a grid of
      height / 2 rows, filled cell by cell. The loops index the picture from (0, 0),
      as the source does, whatever the rectangle's origin. */
  method ConvertImageWithHexColors(img: Picture) returns (r: Result<Image, string>)
    requires img.Valid()
    ensures r.Err? <==> img.height % 2 != 0
    ensures r.Err? ==> r.error == "height must be a multiple of 2"
    ensures r.Ok? ==> r.value == Folded(img)
  {
    var w := img.width;
    var h := img.height;
    if h % 2 != 0 {
      return Err("height must be a multiple of 2");
    }
    var out := new seq<Option<Cell>>[h / 2];
    var y := 0;
    while y < h
      invariant 0 <= y <= h && y % 2 == 0
      invariant forall k :: 0 <= k < y / 2 ==> out[k] == RowAt(img, k)
    {
      var row := new Option<Cell>[w](_ => None);
      for x := 0 to w
        modifies row
        invariant forall k :: 0 <= k < x ==> row[k] == CellAt(img, y / 2, k)
      {
        row[x] := Some(HexColor(img.At(x, y), img.At(x, y + 1)));
      }
      assert row[..] == RowAt(img, y / 2);
      out[y / 2] := row[..];
      y := y + 2;
    }
    return Ok(out[..]);
  }

  /** The grid has height / 2 rows of width cells, and every cell is present. */
  lemma FoldedShape(img: Picture)
    requires img.Valid()
    ensures |Folded(img)| == img.height / 2
    ensures forall r :: 0 <= r < |Folded(img)| ==> |Folded(img)[r]| == img.width
    ensures forall r, x :: 0 <= r < |Folded(img)| && 0 <= x < |Folded(img)[r]| ==> Folded(img)[r][x].Some?
  {
  }

  /** A picture of height 0 gives an empty grid. */
  lemma FoldedEmpty(img: Picture)
    requires img.Valid() && img.height == 0
    ensures Folded(img) == []
  {
  }

  /** For a picture whose origin is (0, 0), every pixel (x, y) is found in exactly one
      cell half: the top of cell (y / 2, x) for an even y, its bottom for an odd y. */
  lemma PixelInOneHalf(img: Picture, x: nat, y: nat)
    requires img.Valid() && img.minX == 0 && img.minY == 0 && img.height % 2 == 0
    requires x < img.width && y < img.height
    ensures y / 2 < |Folded(img)| && x < |Folded(img)[y / 2]|
    ensures y % 2 == 0 ==> Folded(img)[y / 2][x].value.topColor == img.pix[y][x]
    ensures y % 2 == 1 ==> Folded(img)[y / 2][x].value.bottomColor == img.pix[y][x]
  {
    assert y == 2 * (y / 2) + y % 2;
  }

  /** A picture whose origin is not (0, 0) is read outside its rectangle for the
      leading rows and columns, which come out transparent black. */
  lemma OffsetOriginReadsBlack(img: Picture)
    requires img.Valid() && img.minX > 0 && img.width > 0 && img.height >= 2 && img.height % 2 == 0
    ensures Folded(img)[0][0] == Some(HexColor(NRGBA(0, 0, 0, 0), NRGBA(0, 0, 0, 0)))
  {
  }
}
