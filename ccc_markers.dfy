/**
 * The pixel walks of scanomatic/ui_server_data/js/ccc/helpers.js: `createCanvasMarker` paints a
 * canvas from the blob and background marks, and `getMarkerData` reads marks back from a canvas
 * painted red and black. The canvas's RGBA bytes are an `array<int>` of length 4 * rows * cols;
 * the mark grids are `seq<seq<Mark>>` going in and fresh `array2<Mark>` coming out.
 */
module CccMarkers {
  import opened JsNumbers
  import opened CccColors

  /** A cell of a mark grid: a JavaScript boolean, or a hole (`undefined`) never assigned. */
  datatype Mark = Unset | Marked(b: bool)

  /** The grid has `rows` rows of `cols` cells each. */
  predicate Grid(g: seq<seq<Mark>>, rows: nat, cols: nat) {
    |g| == rows && forall r :: 0 <= r < rows ==> |g[r]| == cols
  }

  /** The colour `createCanvasMarker` gives a cell: blob first, then background, otherwise neither. */
  function MarkerColor(blob: Mark, background: Mark): RGB {
    if blob == Marked(true) then BlobColor
    else if background == Marked(true) then BackgroundColor
    else NeitherColor
  }

  // ---------------------------------------------------------------------------------------
  // Row-major positions
  // ---------------------------------------------------------------------------------------

  lemma MulMonotone(a: int, b: int, c: nat)
    ensures a <= b ==> a * c <= b * c
  {
    if a <= b {
      assert b * c - a * c == (b - a) * c >= 0;
    }
  }

  /** Pixel q of a rows x cols canvas lies in row q / cols, which is a row of the canvas. */
  lemma RowInRange(q: nat, rows: nat, cols: nat)
    requires q < rows * cols
    ensures cols > 0 && q / cols < rows
  {
    MulMonotone(rows, q / cols, cols);
  }

  /** A row and a column within it name exactly one pixel: q = row * cols + col. */
  lemma {:induction false} RowColUnique(q: int, row: int, col: int, cols: nat)
    requires 0 <= row && 0 <= col < cols && q == row * cols + col
    ensures q / cols == row && q % cols == col
  {
    var d, m := q / cols, q % cols;
    assert q == d * cols + m && 0 <= m < cols;
    MulMonotone(row + 1, d, cols);
    MulMonotone(d + 1, row, cols);
    assert (row + 1) * cols == row * cols + cols;
    assert (d + 1) * cols == d * cols + cols;
  }

  /** The cell colours in the order the canvas holds its pixels: pixel q is cell (q / cols, q % cols). */
  function RowMajor(blob: seq<seq<Mark>>, background: seq<seq<Mark>>, rows: nat, cols: nat): (colors: seq<RGB>)
    requires Grid(blob, rows, cols) && Grid(background, rows, cols)
    ensures |colors| == rows * cols
  {
    seq(rows * cols, q requires 0 <= q < rows * cols =>
      RowInRange(q, rows, cols);
      MarkerColor(blob[q / cols][q % cols], background[q / cols][q % cols]))
  }

  /** Cell (r, c) is painted at pixel r * cols + c. */
  lemma RowMajorCell(blob: seq<seq<Mark>>, background: seq<seq<Mark>>, rows: nat, cols: nat, r: nat, c: nat)
    requires Grid(blob, rows, cols) && Grid(background, rows, cols)
    requires r < rows && c < cols
    ensures r * cols + c < rows * cols
    ensures RowMajor(blob, background, rows, cols)[r * cols + c] == MarkerColor(blob[r][c], background[r][c])
  {
    MulMonotone(r + 1, rows, cols);
    RowColUnique(r * cols + c, r, c, cols);
  }

  /** Bytes 4q .. 4q+3 of the canvas hold the colour c, fully opaque. */
  predicate PixelIs(a: seq<int>, q: int, c: RGB)
    requires 0 <= q && 4 * q + 3 < |a|
  {
    a[4 * q] == c.r && a[4 * q + 1] == c.g && a[4 * q + 2] == c.b && a[4 * q + 3] == 255
  }

  // ---------------------------------------------------------------------------------------
  // createCanvasMarker
  // ---------------------------------------------------------------------------------------

  /**
   * `createCanvasMarker` on an image of `rows` rows of `cols` cells. An image without rows
   * throws TypeError at `data.image[0].length`, and one without columns makes `getImageData`
   * throw IndexSizeError; `thrown` reports either, with nothing painted. Otherwise every pixel
   * is painted as `PaintMarkers` states.
   */
  method CreateCanvasMarker(blob: seq<seq<Mark>>, background: seq<seq<Mark>>, rows: nat, cols: nat, pixels: array<int>)
    returns (thrown: bool)
    requires Grid(blob, rows, cols) && Grid(background, rows, cols)
    requires pixels.Length == 4 * (rows * cols)
    modifies pixels
    ensures thrown <==> rows == 0 || cols == 0
    ensures thrown ==> pixels[..] == old(pixels[..])
    ensures forall q :: 0 <= q < rows * cols ==> PixelIs(pixels[..], q, RowMajor(blob, background, rows, cols)[q])
  {
    if rows == 0 || cols == 0 {
      return true;
    }
    PaintMarkers(blob, background, rows, cols, pixels);
    return false;
  }

  /**
   * The loop of `createCanvasMarker`: the byte index i steps by 4 while the column counter runs
   * from -1 and wraps into the next row, so pixel q receives the colour of cell (q / cols, q % cols)
   * and alpha 255.
   */
  method PaintMarkers(blob: seq<seq<Mark>>, background: seq<seq<Mark>>, rows: nat, cols: nat, pixels: array<int>)
    requires Grid(blob, rows, cols) && Grid(background, rows, cols)
    requires pixels.Length == 4 * (rows * cols)
    modifies pixels
    ensures forall q :: 0 <= q < rows * cols ==> PixelIs(pixels[..], q, RowMajor(blob, background, rows, cols)[q])
  {
    ghost var expected := RowMajor(blob, background, rows, cols);
    var imageCol := -1;
    var imageRow := 0;
    var i := 0;
    ghost var p := 0;
    while i < pixels.Length
      invariant i == 4 * p && 0 <= p <= rows * cols
      invariant imageRow * cols + imageCol == p - 1
      invariant 0 <= imageRow && -1 <= imageCol < cols
      invariant p == 0 ==> imageCol == -1
      invariant forall q :: 0 <= q < p ==> PixelIs(pixels[..], q, expected[q])
    {
      imageCol := imageCol + 1;
      if imageCol >= cols {
        imageCol := 0;
        imageRow := imageRow + 1;
      }
      RowColUnique(p, imageRow, imageCol, cols);
      RowInRange(p, rows, cols);
      var rgb := MarkerColor(blob[imageRow][imageCol], background[imageRow][imageCol]);
      assert rgb == expected[p];
      pixels[i] := rgb.r;
      pixels[i + 1] := rgb.g;
      pixels[i + 2] := rgb.b;
      pixels[i + 3] := 255;
      i := i + 4;
      p := p + 1;
    }
  }

  // ---------------------------------------------------------------------------------------
  // getMarkerData
  // ---------------------------------------------------------------------------------------

  /** The text `r + "," + g + "," + b` the loop compares. */
  function PixelKey(r: int, g: int, b: int): string {
    JsString(r) + ("," + (JsString(g) + ("," + JsString(b))))
  }

  /** Pixels with byte channels have equal keys only when their channels are equal. */
  lemma PixelKeyInjective(r1: nat, g1: nat, b1: nat, r2: nat, g2: nat, b2: nat)
    requires PixelKey(r1, g1, b1) == PixelKey(r2, g2, b2)
    ensures r1 == r2 && g1 == g2 && b1 == b2
  {
    NumeralPrefix(Decimal(r1), "," + (JsString(g1) + ("," + JsString(b1))),
                  Decimal(r2), "," + (JsString(g2) + ("," + JsString(b2))));
    DecimalInjective(r1, r2);
    DropLiteral(",", JsString(g1) + ("," + JsString(b1)), JsString(g2) + ("," + JsString(b2)));
    NumeralPrefix(Decimal(g1), "," + JsString(b1), Decimal(g2), "," + JsString(b2));
    DecimalInjective(g1, g2);
    DropLiteral(",", JsString(b1), JsString(b2));
    DecimalInjective(b1, b2);
  }

  /** The two keys the loop looks for are the keys of pure red and pure black. */
  lemma KnownKeys()
    ensures PixelKey(255, 0, 0) == "255,0,0"
    ensures PixelKey(0, 0, 0) == "0,0,0"
  {
    assert Decimal(255) == "255";
  }

  /** What the loop of `getMarkerData` stores for one pixel: red marks blob, black marks background, anything else nothing. */
  function ReadPixel(r: int, g: int, b: int): (marks: (Mark, Mark))
    requires 0 <= r <= 255 && 0 <= g <= 255 && 0 <= b <= 255
    ensures marks.0 == Marked(true) <==> r == 255 && g == 0 && b == 0
    ensures marks.1 == Marked(true) <==> r == 0 && g == 0 && b == 0
    ensures marks.0 == Unset <==> marks.1 == Unset
    ensures marks.0 == Unset <==> !(r == 255 && g == 0 && b == 0) && !(r == 0 && g == 0 && b == 0)
  {
    KnownKeys();
    if PixelKey(r, g, b) == PixelKey(255, 0, 0) then PixelKeyInjective(r, g, b, 255, 0, 0); (Marked(true), Marked(false))
    else if PixelKey(r, g, b) == PixelKey(0, 0, 0) then PixelKeyInjective(r, g, b, 0, 0, 0); (Marked(false), Marked(true))
    else (Unset, Unset)
  }

  /** The canvas bytes are bytes, as a `Uint8ClampedArray` holds them. */
  predicate Bytes(a: seq<int>) {
    forall k :: 0 <= k < |a| ==> 0 <= a[k] <= 255
  }

  /** The marks pixel q of a canvas reads as; a hole for a position off the canvas. */
  function PixelMarks(a: seq<int>, q: int): (Mark, Mark)
    requires Bytes(a)
  {
    if 0 <= q && 4 * q + 3 < |a| then ReadPixel(a[4 * q], a[4 * q + 1], a[4 * q + 2]) else (Unset, Unset)
  }

  /**
   * The body of the loop of `getMarkerData` for one pixel: compares its key with red and black
   * and stores the marks at (row, col); a pixel of any other colour leaves both cells as they were.
   */
  method StoreMarks(blob: array2<Mark>, background: array2<Mark>, row: nat, col: nat, r: int, g: int, b: int)
    requires blob != background
    requires row < blob.Length0 && col < blob.Length1 && row < background.Length0 && col < background.Length1
    requires 0 <= r <= 255 && 0 <= g <= 255 && 0 <= b <= 255
    modifies blob, background
    ensures var m := ReadPixel(r, g, b);
      blob[row, col] == (if m.0 == Unset then old(blob[row, col]) else m.0) &&
      background[row, col] == (if m.1 == Unset then old(background[row, col]) else m.1)
    ensures forall i, j :: 0 <= i < blob.Length0 && 0 <= j < blob.Length1 && (i != row || j != col) ==> blob[i, j] == old(blob[i, j])
    ensures forall i, j :: 0 <= i < background.Length0 && 0 <= j < background.Length1 && (i != row || j != col) ==>
      background[i, j] == old(background[i, j])
  {
    var key := PixelKey(r, g, b);
    KnownKeys();
    if key == "255,0,0" {
      PixelKeyInjective(r, g, b, 255, 0, 0);
      blob[row, col] := Marked(true);
      background[row, col] := Marked(false);
    } else if key == "0,0,0" {
      PixelKeyInjective(r, g, b, 0, 0, 0);
      blob[row, col] := Marked(false);
      background[row, col] := Marked(true);
    }
  }

  /** A cell whose position lies before the end of the canvas is in one of its rows. */
  lemma RowBelow(row: int, col: int, rows: nat, cols: nat)
    requires 0 <= row && 0 <= col && row * cols + col < rows * cols
    ensures row < rows
  {
    MulMonotone(rows, row, cols);
  }

  /** The loop's step from the cell at position p - 1 reaches the cell at position p, inside the canvas. */
  lemma NextCell(row: int, col: int, rows: nat, cols: nat, p: int)
    requires 0 <= row && -1 <= col < cols && row * cols + col == p - 1 && p < rows * cols
    ensures col + 1 < cols ==> row * cols + (col + 1) == p && row < rows
    ensures col + 1 >= cols ==> (row + 1) * cols + 0 == p && row + 1 < rows
  {
    if col + 1 < cols {
      RowBelow(row, col + 1, rows, cols);
    } else {
      assert (row + 1) * cols == row * cols + cols;
      RowBelow(row + 1, 0, rows, cols);
    }
  }

  /** The cell at the last position of the canvas is its bottom-right cell. */
  lemma LastCell(row: int, col: int, rows: nat, cols: nat)
    requires 0 <= row && 0 <= col < cols && row * cols + col == rows * cols - 1
    ensures row == rows - 1 && col == cols - 1
  {
    RowColUnique(rows * cols - 1, row, col, cols);
    RowBelow(row, col, rows, cols);
    assert rows * cols - 1 == (rows - 1) * cols + (cols - 1);
    RowColUnique(rows * cols - 1, rows - 1, cols - 1, cols);
  }

  /** The marks of cell (r, c) of a canvas with `cols` columns. */
  function CellMarks(a: seq<int>, cols: nat, r: int, c: int): (Mark, Mark)
    requires Bytes(a)
  {
    PixelMarks(a, r * cols + c)
  }

  /** The cell at position p holds the marks of bytes 4p .. 4p+2. */
  lemma CellMarksAt(a: seq<int>, cols: nat, r: int, c: int, p: int)
    requires Bytes(a) && r * cols + c == p && 0 <= p && 4 * p + 3 < |a|
    ensures CellMarks(a, cols, r, c) == ReadPixel(a[4 * p], a[4 * p + 1], a[4 * p + 2])
  {
    assert CellMarks(a, cols, r, c) == PixelMarks(a, p);
  }

  /** Cell (r, c) comes no later than cell (row, col) in row-major order. */
  predicate UpTo(r: int, c: int, row: int, col: int) {
    r < row || (r == row && c <= col)
  }

  /**
   * `getMarkerData`: fresh rows x cols grids of holes, and for each pixel in row-major order the
   * marks `ReadPixel` gives, stored at its row and column. A canvas of zero width or height makes
   * `getImageData` throw IndexSizeError; `thrown` reports it, and the grids, empty, stand for nothing.
   */
  method GetMarkerData(pixels: array<int>, rows: nat, cols: nat)
    returns (thrown: bool, blob: array2<Mark>, background: array2<Mark>)
    requires pixels.Length == 4 * (rows * cols) && Bytes(pixels[..])
    ensures thrown <==> rows == 0 || cols == 0
    ensures fresh(blob) && fresh(background)
    ensures blob.Length0 == rows && blob.Length1 == cols && background.Length0 == rows && background.Length1 == cols
    ensures forall r, c :: 0 <= r < rows && 0 <= c < cols ==>
      blob[r, c] == PixelMarks(pixels[..], r * cols + c).0 && background[r, c] == PixelMarks(pixels[..], r * cols + c).1
  {
    ghost var a := pixels[..];
    blob := new Mark[rows, cols]((r, c) => Unset);
    background := new Mark[rows, cols]((r, c) => Unset);
    if rows == 0 || cols == 0 {
      return true, blob, background;
    }
    thrown := false;
    var imageCol := -1;
    var imageRow := 0;
    var i := 0;
    ghost var p := 0;
    while i < pixels.Length
      invariant i == 4 * p && 0 <= p <= rows * cols
      invariant imageRow * cols + imageCol == p - 1
      invariant 0 <= imageRow && -1 <= imageCol < cols
      invariant p == 0 <==> imageCol == -1
      invariant forall r, c :: 0 <= r < rows && 0 <= c < cols ==>
        blob[r, c] == (if UpTo(r, c, imageRow, imageCol) then CellMarks(a, cols, r, c).0 else Unset)
      invariant forall r, c :: 0 <= r < rows && 0 <= c < cols ==>
        background[r, c] == (if UpTo(r, c, imageRow, imageCol) then CellMarks(a, cols, r, c).1 else Unset)
    {
      ghost var row0, col0 := imageRow, imageCol;
      NextCell(row0, col0, rows, cols, p);
      imageCol := imageCol + 1;
      if imageCol >= cols {
        imageCol := 0;
        imageRow := imageRow + 1;
      }
      forall r, c | 0 <= r < rows && 0 <= c < cols && (r != imageRow || c != imageCol)
        ensures UpTo(r, c, imageRow, imageCol) == UpTo(r, c, row0, col0)
      {
      }
      assert blob[imageRow, imageCol] == Unset && background[imageRow, imageCol] == Unset;
      assert 4 * p + 3 < |a| && a[4 * p] == pixels[i] && a[4 * p + 1] == pixels[i + 1] && a[4 * p + 2] == pixels[i + 2];
      CellMarksAt(a, cols, imageRow, imageCol, p);
      StoreMarks(blob, background, imageRow, imageCol, pixels[i], pixels[i + 1], pixels[i + 2]);
      i := i + 4;
      p := p + 1;
    }
    if p > 0 {
      LastCell(imageRow, imageCol, rows, cols);
    }
  }

  /** Painting marks and reading them back finds nothing: none of the three marker colours is pure red or pure black. */
  lemma MarkersReadAsHoles(blob: Mark, background: Mark)
    ensures var c := MarkerColor(blob, background); ReadPixel(c.r, c.g, c.b) == (Unset, Unset)
  {
  }
}
