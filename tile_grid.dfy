/**
 * The 5000-unit tile grid of the histogram-matching export
 * (HistogramMatching.py:429-469, 506, 512, 519): snapping the extent,
 * counting the cells and listing the tiles with their names and
 * geotransforms.
 */
module TileGrid {
  import opened PyNum
  import opened Decimal

  /** The side of a tile, in map units. */
  const CellSize: int := 5000

  /** A raster extent, in map units. */
  datatype Extent = Extent(xMin: real, yMin: real, xMax: real, yMax: real)

  /** The snapped extent `(fe_xmin, fe_ymin, fe_xmax, fe_ymax)`; the maxima stay floats. */
  datatype Grid = Grid(xMin: int, yMin: int, xMax: real, yMax: real)

  /** `int(v/10000)*10000`. */
  function Base(v: real): (b: int)
    ensures b % CellSize == 0
  {
    var k := Trunc(v / 10000.0);
    DivModOfMulAdd(2 * k, CellSize, 0);
    k * 10000
  }

  /** Moving a multiple of the cell size by whole cells keeps it a multiple. */
  lemma ShiftMultiple(b: int, k: int)
    requires b % CellSize == 0
    ensures (b + CellSize * k) % CellSize == 0
  {
    assert b + CellSize * k == (b / CellSize + k) * CellSize + 0;
    DivModOfMulAdd(b / CellSize + k, CellSize, 0);
  }

  /** Lines 429-437: snapping a minimum, given the coordinate's tail value. */
  function SnapLow(v: real, tail: int): (g: int)
    ensures g % CellSize == 0
  {
    ShiftMultiple(Base(v), 1);
    if tail < 5000 then Base(v) else Base(v) + 5000
  }

  /** Lines 439-451: snapping a maximum, given the coordinate's tail value. */
  function SnapHigh(v: real, tail: int): (g: real)
    ensures tail == 0 ==> g == v
    ensures tail != 0 ==> g == Trunc(g) as real && Trunc(g) % CellSize == 0
  {
    if tail == 0 then v
    else
      var b := if tail <= 5000 then Base(v) + 5000 else Base(v) + 10000;
      ShiftMultiple(Base(v), 1);
      ShiftMultiple(Base(v), 2);
      TruncOfInt(b);
      b as real
  }

  /** `int(str(int(v))[2:])` can be evaluated for every corner of the extent. */
  predicate TailsDefined(e: Extent)
  {
    && TailDefined(Trunc(e.xMin)) && TailDefined(Trunc(e.yMin))
    && TailDefined(Trunc(e.xMax)) && TailDefined(Trunc(e.yMax))
  }

  /** Lines 429-451 as written: the tail of a coordinate is `int(str(int(v))[2:])`. */
  function GridAsWritten(e: Extent): (g: Grid)
    requires TailsDefined(e)
    ensures g.xMin % CellSize == 0 && g.yMin % CellSize == 0
  {
    Grid(SnapLow(e.xMin, PyTail(Trunc(e.xMin))), SnapLow(e.yMin, PyTail(Trunc(e.yMin))),
         SnapHigh(e.xMax, PyTail(Trunc(e.xMax))), SnapHigh(e.yMax, PyTail(Trunc(e.yMax))))
  }

  /** The tail the snapping means: the last four digits of the integer part. */
  function LastFourDigits(v: real): int
  {
    Trunc(v) % 10000
  }

  /** Lines 429-451 with the tail taken as the last four digits, whatever the coordinate's magnitude. */
  function SnappedGrid(e: Extent): (g: Grid)
    ensures g.xMin % CellSize == 0 && g.yMin % CellSize == 0
  {
    Grid(SnapLow(e.xMin, LastFourDigits(e.xMin)), SnapLow(e.yMin, LastFourDigits(e.yMin)),
         SnapHigh(e.xMax, LastFourDigits(e.xMax)), SnapHigh(e.yMax, LastFourDigits(e.yMax)))
  }

  predicate SixDigits(v: real)
  {
    100000 <= Trunc(v) <= 999999
  }

  /** On six-digit coordinates the code as written and the last-four-digits snapping agree. */
  lemma GridAgreesOnSixDigits(e: Extent)
    requires SixDigits(e.xMin) && SixDigits(e.yMin) && SixDigits(e.xMax) && SixDigits(e.yMax)
    ensures TailsDefined(e) && GridAsWritten(e) == SnappedGrid(e)
  {
    PyTailSixDigits(Trunc(e.xMin));
    PyTailSixDigits(Trunc(e.yMin));
    PyTailSixDigits(Trunc(e.xMax));
    PyTailSixDigits(Trunc(e.yMax));
  }

  lemma TruncTenThousandth(n: nat)
    ensures Trunc(n as real / 10000.0) == n / 10000
  {
    var q := n / 10000;
    assert q * 10000 <= n < q * 10000 + 10000;
    assert q as real <= n as real / 10000.0 < q as real + 1.0;
  }

  /** A snapped minimum is the multiple of 5000 at or just below the coordinate. */
  lemma SnapLowCorrect(n: nat)
    ensures var g := SnapLow(n as real, n % 10000);
      g % CellSize == 0 && g <= n < g + CellSize
  {
    TruncTenThousandth(n);
  }

  /** A snapped maximum is the multiple of 5000 at or just above the coordinate. */
  lemma SnapHighCorrect(n: nat)
    ensures var g := SnapHigh(n as real, n % 10000);
      g == Trunc(g) as real && Trunc(g) % CellSize == 0 && n as real <= g < n as real + CellSize as real
  {
    TruncTenThousandth(n);
    var g := SnapHigh(n as real, n % 10000);
    var k := if n % 10000 == 0 then n else n / 10000 * 10000 + (if n % 10000 <= 5000 then 5000 else 10000);
    assert g == k as real;
    TruncOfInt(k);
  }

  /** An extent whose corners are non-negative whole numbers. */
  predicate WholeExtent(e: Extent)
  {
    && e.xMin >= 0.0 && e.yMin >= 0.0 && e.xMax >= 0.0 && e.yMax >= 0.0
    && e.xMin == Trunc(e.xMin) as real && e.yMin == Trunc(e.yMin) as real
    && e.xMax == Trunc(e.xMax) as real && e.yMax == Trunc(e.yMax) as real
  }

  /**
   * For whole extents the snapped grid is the smallest 5000-aligned
   * rectangle around the extent: each edge lies on a multiple of 5000,
   * outside the extent by less than one cell.
   */
  lemma SnappedGridBounds(e: Extent)
    requires WholeExtent(e)
    ensures var g := SnappedGrid(e);
      && g.xMin % CellSize == 0 && g.yMin % CellSize == 0
      && g.xMin as real <= e.xMin < (g.xMin + CellSize) as real
      && g.yMin as real <= e.yMin < (g.yMin + CellSize) as real
      && g.xMax == Trunc(g.xMax) as real && Trunc(g.xMax) % CellSize == 0
      && g.yMax == Trunc(g.yMax) as real && Trunc(g.yMax) % CellSize == 0
      && e.xMax <= g.xMax < e.xMax + CellSize as real
      && e.yMax <= g.yMax < e.yMax + CellSize as real
  {
    SnapLowCorrect(Trunc(e.xMin));
    SnapLowCorrect(Trunc(e.yMin));
    SnapHighCorrect(Trunc(e.xMax));
    SnapHighCorrect(Trunc(e.yMax));
  }

  /** `int((hi - lo)/5000)` cells, as `range` counts them (none when negative). */
  function CellCount(lo: int, hi: real): nat
  {
    Max(0, Trunc((hi - lo as real) / 5000.0)) as nat
  }

  function Columns(g: Grid): nat { CellCount(g.xMin, g.xMax) }

  function Rows(g: Grid): nat { CellCount(g.yMin, g.yMax) }

  /** The cells stay inside the snapped extent. */
  lemma CellsInsideGrid(g: Grid)
    ensures (g.xMin + CellSize * Columns(g)) as real <= g.xMax || Columns(g) == 0
    ensures (g.yMin + CellSize * Rows(g)) as real <= g.yMax || Rows(g) == 0
  {
  }

  /** The index of the cell that holds coordinate p along an axis starting at lo. */
  function CellOf(lo: int, p: real): int
  {
    Trunc((p - lo as real) / 5000.0)
  }

  // One axis of the covering argument: a snapped axis is split into whole cells, one of which holds p.
  lemma AxisCovers(lo: int, hiWhole: int, hi: real, p: real)
    requires hi == hiWhole as real && (hiWhole - lo) % CellSize == 0
    requires lo as real <= p < hi
    ensures 0 <= CellOf(lo, p) < CellCount(lo, hi)
    ensures (lo + CellSize * CellOf(lo, p)) as real <= p < (lo + CellSize * (CellOf(lo, p) + 1)) as real
  {
    var k := (hiWhole - lo) / CellSize;
    assert hiWhole - lo == CellSize * k;
    assert (hi - lo as real) / 5000.0 == k as real;
    TruncOfInt(k);
    TruncMonotone((p - lo as real) / 5000.0, (hi - lo as real) / 5000.0);
  }

  /**
   * Every point of a whole extent lies in one of the
   * `Columns(g) x Rows(g)` cells that lines 465-466 visit.
   */
  lemma GridCoversExtent(e: Extent, px: real, py: real)
    requires WholeExtent(e)
    requires e.xMin <= px < e.xMax && e.yMin <= py < e.yMax
    ensures var g := SnappedGrid(e);
      var i, j := CellOf(g.xMin, px), CellOf(g.yMin, py);
      && 0 <= i < Columns(g) && 0 <= j < Rows(g)
      && (g.xMin + CellSize * i) as real <= px < (g.xMin + CellSize * (i + 1)) as real
      && (g.yMin + CellSize * j) as real <= py < (g.yMin + CellSize * (j + 1)) as real
  {
    SnappedAxisCovers(Trunc(e.xMin), Trunc(e.xMax), px);
    SnappedAxisCovers(Trunc(e.yMin), Trunc(e.yMax), py);
  }

  // One snapped axis: the cells between the snapped ends hold every point between the original ends.
  lemma SnappedAxisCovers(lo: nat, hi: nat, p: real)
    requires lo as real <= p < hi as real
    ensures var a, b := SnapLow(lo as real, lo % 10000), SnapHigh(hi as real, hi % 10000);
      var i := CellOf(a, p);
      && 0 <= i < CellCount(a, b)
      && (a + CellSize * i) as real <= p < (a + CellSize * (i + 1)) as real
  {
    SnapLowCorrect(lo);
    SnapHighCorrect(hi);
    var a, b := SnapLow(lo as real, lo % 10000), SnapHigh(hi as real, hi % 10000);
    MultiplesDiffer(Trunc(b), a);
    AxisCovers(a, Trunc(b), b, p);
  }

  lemma MultiplesDiffer(x: int, y: int)
    requires x % CellSize == 0 && y % CellSize == 0
    ensures (x - y) % CellSize == 0
  {
    assert x == CellSize * (x / CellSize) && y == CellSize * (y / CellSize);
    assert x - y == CellSize * (x / CellSize - y / CellSize);
  }

  /** The example extent used to check the snapping rule. */
  const Example: Extent := Extent(12345.0, 67890.0, 34567.0, 89012.0)

  /**
   * As written, `str(n)[2:]` keeps three digits of a five-digit coordinate:
   * for y_max = 89012 the tail is 12, the grid stops at 85000, and the
   * points with 85000 <= y < 89012 fall in no cell.
   */
  lemma AsWrittenMissesExampleTop()
    ensures TailsDefined(Example)
    ensures GridAsWritten(Example) == Grid(10000, 60000, 35000.0, 85000.0)
    ensures Rows(GridAsWritten(Example)) == 5
    ensures 60000 + CellSize * Rows(GridAsWritten(Example)) < 89011
  {
    PyTailFiveDigits(12345);
    PyTailFiveDigits(67890);
    PyTailFiveDigits(34567);
    PyTailFiveDigits(89012);
    TruncOfInt(12345);
    TruncOfInt(67890);
    TruncOfInt(34567);
    TruncOfInt(89012);
    assert Trunc(12345.0 / 10000.0) == 1;
    assert Trunc(67890.0 / 10000.0) == 6;
    assert Trunc(34567.0 / 10000.0) == 3;
    assert Trunc(89012.0 / 10000.0) == 8;
    assert Trunc((85000.0 - 60000.0) / 5000.0) == 5;
  }

  /** With the last four digits the example extent is covered by a 5 x 5 grid. */
  lemma SnappedExample()
    ensures SnappedGrid(Example) == Grid(10000, 65000, 35000.0, 90000.0)
    ensures Columns(SnappedGrid(Example)) == 5 && Rows(SnappedGrid(Example)) == 5
  {
    TruncOfInt(12345);
    TruncOfInt(67890);
    TruncOfInt(34567);
    TruncOfInt(89012);
    assert Trunc(12345.0 / 10000.0) == 1;
    assert Trunc(67890.0 / 10000.0) == 6;
    assert Trunc(34567.0 / 10000.0) == 3;
    assert Trunc(89012.0 / 10000.0) == 8;
    assert Trunc((35000.0 - 10000.0) / 5000.0) == 5;
    assert Trunc((90000.0 - 65000.0) / 5000.0) == 5;
  }

  /** Lines 453-454: `int(5000 / res)` pixels per tile side; both sides use the X pixel size. */
  function TileSize(res: real): (n: int)
    requires res > 0.0
    ensures n >= 0
  {
    Trunc(5000.0 / res)
  }

  /** A tile side holds as many whole pixels as fit in 5000 units: less than one pixel of it is lost. */
  lemma TileSizeFits(res: real)
    requires res > 0.0
    ensures TileSize(res) as real * res <= 5000.0 < (TileSize(res) as real + 1.0) * res
  {
    var q := 5000.0 / res;
    DivTimes(5000.0, res);
    DivNonNegative(5000.0, res);
    Between(Trunc(q) as real, q, res, 5000.0);
  }

  // A value between n and n + 1, times c > 0, lies between n * c and (n + 1) * c.
  lemma Between(n: real, q: real, c: real, v: real)
    requires n <= q < n + 1.0 && c > 0.0 && q * c == v
    ensures n * c <= v
    ensures v < (n + 1.0) * c
  {
    MulRealMonotone(n, q, c);
    var m := n + 1.0;
    MulRealStrict(q, m, c);
    assert v < m * c;
  }

  lemma DivNonNegative(a: real, b: real)
    requires a >= 0.0 && b > 0.0
    ensures a / b >= 0.0
  {
  }

  lemma DivTimes(a: real, b: real)
    requires b != 0.0
    ensures a / b * b == a
  {
  }

  lemma MulRealMonotone(a: real, b: real, c: real)
    requires a <= b && c > 0.0
    ensures a * c <= b * c
  {
  }

  lemma MulRealStrict(a: real, b: real, c: real)
    requires a < b && c > 0.0
    ensures a * c < b * c
  {
  }

  /** `path.split('.')[0]`: the text before the first dot, all of it when there is none. */
  function BeforeFirstDot(path: string): (d: string)
    ensures |d| <= |path| && d == path[..|d|]
    ensures forall k :: 0 <= k < |d| ==> d[k] != '.'
    ensures |d| < |path| ==> path[|d|] == '.'
  {
    if path == [] || path[0] == '.' then [] else [path[0]] + BeforeFirstDot(path[1..])
  }

  /** Lines 468 and 506: the tile name `PSUD_SAT50_<x>_<y>_2019_5KM`. */
  function TileName(x: int, y: int): string
  {
    "PSUD_SAT50_" + Str(x) + "_" + Str(y) + "_2019_5KM"
  }

  /** The six numbers of a GDAL geotransform. */
  datatype GeoTransform = GeoTransform(originX: real, pixelWidth: real, rowRotation: real,
                                       originY: real, columnRotation: real, pixelHeight: real)

  /** Where a geotransform places pixel corner (column, row). */
  function Place(t: GeoTransform, column: real, row: real): (real, real)
  {
    (t.originX + column * t.pixelWidth + row * t.rowRotation,
     t.originY + column * t.columnRotation + row * t.pixelHeight)
  }

  /** One tile of the grid: its cell, its extent (line 469), its file (line 506) and geotransform (line 512). */
  datatype Tile = Tile(column: nat, row: nat, xMin: int, yMin: int, xMax: int, yMax: int,
                       path: string, transform: GeoTransform)

  function TileAt(g: Grid, i: nat, j: nat, dir: string, resX: real, resY: real): (t: Tile)
  {
    var x, y := g.xMin + i * CellSize, g.yMin + j * CellSize;
    Tile(i, j, x, y, x + CellSize, y + CellSize,
         dir + "/" + TileName(x, y) + ".tif",
         GeoTransform(x as real, resX, 0.0, (y + CellSize) as real, 0.0, -resY))
  }

  /** A tile is the 5000 x 5000 square of its cell, and its geotransform starts at the square's top-left corner. */
  lemma TileAtShape(g: Grid, i: nat, j: nat, dir: string, resX: real, resY: real)
    ensures var t := TileAt(g, i, j, dir, resX, resY);
      && t.xMax - t.xMin == CellSize && t.yMax - t.yMin == CellSize
      && t.xMin == g.xMin + CellSize * i && t.yMin == g.yMin + CellSize * j
      && Place(t.transform, 0.0, 0.0) == (t.xMin as real, t.yMax as real)
  {
  }

  /**
   * With square pixels the `TileSize(res) x TileSize(res)` pixels of a tile end
   * inside its square, less than one pixel from its bottom-right corner.
   */
  lemma TilePixelsFit(g: Grid, i: nat, j: nat, dir: string, res: real)
    requires res > 0.0
    ensures var t := TileAt(g, i, j, dir, res, res);
      var n := TileSize(res) as real;
      var (x, y) := Place(t.transform, n, n);
      && t.xMin as real < x + res && x <= t.xMax as real && x > t.xMax as real - res
      && t.yMin as real <= y && y < t.yMin as real + res
  {
    TileSizeFits(res);
  }

  // In a + "_" + b with no underscore in a, the first underscore is at |a|.
  lemma FirstUnderscore(a: string, b: string)
    requires forall k :: 0 <= k < |a| ==> a[k] != '_'
    ensures (a + "_" + b)[|a|] == '_'
    ensures forall k :: 0 <= k < |a| ==> (a + "_" + b)[k] != '_'
  {
  }

  // Splits a + "_" + b at its first underscore when a has none.
  lemma SplitAtUnderscore(a: string, b: string, c: string, d: string)
    requires forall k :: 0 <= k < |a| ==> a[k] != '_'
    requires forall k :: 0 <= k < |c| ==> c[k] != '_'
    requires a + "_" + b == c + "_" + d
    ensures a == c && b == d
  {
    FirstUnderscore(a, b);
    FirstUnderscore(c, d);
    var s := a + "_" + b;
    assert |a| == |c|;
    assert a == s[..|a|] && c == s[..|c|];
    assert b == s[|a| + 1..] && d == s[|c| + 1..];
  }

  lemma StripPrefix(p: string, u: string, v: string)
    requires p + u == p + v
    ensures u == v
  {
    assert u == (p + u)[|p|..] && v == (p + v)[|p|..];
  }

  lemma StripSuffix(u: string, v: string, q: string)
    requires u + q == v + q
    ensures u == v
  {
    assert u == (u + q)[..|u|] && v == (v + q)[..|v|];
  }

  lemma StrHasNoUnderscore(n: int)
    ensures forall k :: 0 <= k < |Str(n)| ==> Str(n)[k] != '_'
  {
    forall k | 0 <= k < |Str(n)|
      ensures Str(n)[k] != '_'
    {
      StrChars(n, k);
    }
  }

  // The two numbers of a name are recovered from it when the first one has no underscore.
  lemma NamePartsDetermined(u1: string, v1: string, u2: string, v2: string)
    requires forall k :: 0 <= k < |u1| ==> u1[k] != '_'
    requires forall k :: 0 <= k < |u2| ==> u2[k] != '_'
    requires "PSUD_SAT50_" + u1 + "_" + v1 + "_2019_5KM" == "PSUD_SAT50_" + u2 + "_" + v2 + "_2019_5KM"
    ensures u1 == u2 && v1 == v2
  {
    var p, q := "PSUD_SAT50_", "_2019_5KM";
    assert p + u1 + "_" + v1 + q == p + (u1 + "_" + (v1 + q));
    assert p + u2 + "_" + v2 + q == p + (u2 + "_" + (v2 + q));
    StripPrefix(p, u1 + "_" + (v1 + q), u2 + "_" + (v2 + q));
    SplitAtUnderscore(u1, v1 + q, u2, v2 + q);
    StripSuffix(v1, v2, q);
  }

  /** Two tiles get the same name only when they have the same origin. */
  lemma TileNameInjective(x1: int, y1: int, x2: int, y2: int)
    requires TileName(x1, y1) == TileName(x2, y2)
    ensures x1 == x2 && y1 == y2
  {
    StrHasNoUnderscore(x1);
    StrHasNoUnderscore(x2);
    NamePartsDetermined(Str(x1), Str(y1), Str(x2), Str(y2));
    StrInjective(x1, x2);
    StrInjective(y1, y2);
  }

  lemma PathDetermined(dir: string, n1: string, n2: string)
    requires dir + "/" + n1 + ".tif" == dir + "/" + n2 + ".tif"
    ensures n1 == n2
  {
    var p := dir + "/";
    assert p + n1 + ".tif" == p + (n1 + ".tif");
    assert p + n2 + ".tif" == p + (n2 + ".tif");
    StripPrefix(p, n1 + ".tif", n2 + ".tif");
    StripSuffix(n1, n2, ".tif");
  }

  /** Different cells of one grid are written to different files. */
  lemma TilePathsDistinct(g: Grid, i1: nat, j1: nat, i2: nat, j2: nat, dir: string, resX: real, resY: real)
    requires (i1, j1) != (i2, j2)
    ensures TileAt(g, i1, j1, dir, resX, resY).path != TileAt(g, i2, j2, dir, resX, resY).path
  {
    var x1, y1 := g.xMin + i1 * CellSize, g.yMin + j1 * CellSize;
    var x2, y2 := g.xMin + i2 * CellSize, g.yMin + j2 * CellSize;
    if dir + "/" + TileName(x1, y1) + ".tif" == dir + "/" + TileName(x2, y2) + ".tif" {
      PathDetermined(dir, TileName(x1, y1), TileName(x2, y2));
      TileNameInjective(x1, y1, x2, y2);
    }
  }

  /** The tiles of column i, bottom to top. */
  function Column(g: Grid, i: nat, dir: string, resX: real, resY: real): (c: seq<Tile>)
    ensures |c| == Rows(g)
  {
    seq(Rows(g), j requires 0 <= j < Rows(g) => TileAt(g, i, j, dir, resX, resY))
  }

  /** The tiles of the first n columns, in the order the loops visit them. */
  function TilesUpTo(g: Grid, n: nat, dir: string, resX: real, resY: real): seq<Tile>
  {
    if n == 0 then [] else TilesUpTo(g, n - 1, dir, resX, resY) + Column(g, n - 1, dir, resX, resY)
  }

  /** The tile list of the whole grid, with the directory taken from the output path. */
  function Plan(g: Grid, output: string, resX: real, resY: real): seq<Tile>
  {
    TilesUpTo(g, Columns(g), BeforeFirstDot(output), resX, resY)
  }

  /**
   * Lines 465-519: the tiles in the order the two loops visit them
   * (x outer, y inner); the file list `liste_vrt` is read off as their paths.
   */
  method PlanTiles(g: Grid, output: string, resX: real, resY: real) returns (tiles: seq<Tile>)
    ensures tiles == Plan(g, output, resX, resY)
  {
    var dir := BeforeFirstDot(output);
    var columns, rows := Columns(g), Rows(g);
    tiles := [];
    for i := 0 to columns
      invariant tiles == TilesUpTo(g, i, dir, resX, resY)
    {
      for j := 0 to rows
        invariant tiles == TilesUpTo(g, i, dir, resX, resY) + Column(g, i, dir, resX, resY)[..j]
      {
        assert Column(g, i, dir, resX, resY)[..j + 1] == Column(g, i, dir, resX, resY)[..j] + [TileAt(g, i, j, dir, resX, resY)];
        tiles := tiles + [TileAt(g, i, j, dir, resX, resY)];
      }
      assert Column(g, i, dir, resX, resY)[..rows] == Column(g, i, dir, resX, resY);
    }
  }

  /** The plan has one tile per cell, the tile of cell (i, j) at position `i * Rows(g) + j`. */
  lemma {:induction false} TilesUpToCells(g: Grid, n: nat, dir: string, resX: real, resY: real)
    ensures |TilesUpTo(g, n, dir, resX, resY)| == n * Rows(g)
    ensures forall k :: 0 <= k < n * Rows(g) ==>
      TilesUpTo(g, n, dir, resX, resY)[k] == TileAt(g, k / Rows(g), k % Rows(g), dir, resX, resY)
  {
    if n > 0 {
      var r := Rows(g);
      TilesUpToCells(g, n - 1, dir, resX, resY);
      var before, column := TilesUpTo(g, n - 1, dir, resX, resY), Column(g, n - 1, dir, resX, resY);
      var m := (n - 1) * r;
      assert m + r == n * r;
      forall k | 0 <= k < n * r
        ensures (before + column)[k] == TileAt(g, k / r, k % r, dir, resX, resY)
      {
        if k >= m {
          LastColumnCell(m, n - 1, r, k);
        }
      }
    }
  }

  lemma LastColumnCell(m: int, c: nat, r: nat, k: int)
    requires m == c * r && m <= k < m + r
    ensures k / r == c && k % r == k - m
  {
    DivModOfMulAdd(c, r, k - m);
  }

  /** Every cell of the grid is planned, and nothing else. */
  lemma EveryCellPlanned(g: Grid, output: string, resX: real, resY: real, i: nat, j: nat)
    requires i < Columns(g) && j < Rows(g)
    ensures |Plan(g, output, resX, resY)| == Columns(g) * Rows(g)
    ensures i * Rows(g) + j < |Plan(g, output, resX, resY)|
    ensures Plan(g, output, resX, resY)[i * Rows(g) + j] == TileAt(g, i, j, BeforeFirstDot(output), resX, resY)
  {
    var r := Rows(g);
    TilesUpToCells(g, Columns(g), BeforeFirstDot(output), resX, resY);
    assert i * r + j < (i + 1) * r;
    MulMonotone(i + 1, Columns(g), r);
    DivModOfMulAdd(i, r, j);
  }

  lemma MulMonotone(a: nat, b: nat, c: nat)
    requires a <= b
    ensures a * c <= b * c
  {
  }
}
