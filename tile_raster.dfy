/**
 * The per-pixel rewrite of one tile (HistogramMatching.py:471-503): every
 * pixel that passes the gate gets its three bands through the
 * transformation tables and an opaque alpha; every other pixel stays 0.
 */
module TileRaster {
  import opened PyNum
  import opened HistogramMatching

  /** One band block as the data provider returns it: a value and a nodata flag per pixel, indexed [row][column]. */
  datatype Block = Block(values: seq<seq<real>>, noData: seq<seq<bool>>)

  predicate Shaped(b: Block, h: nat, w: nat)
  {
    && |b.values| == h && |b.noData| == h
    && (forall x :: 0 <= x < h ==> |b.values[x]| == w)
    && (forall x :: 0 <= x < h ==> |b.noData[x]| == w)
  }

  /** `table[v]` with Python's indexing: a negative index counts from the end. */
  function PyIndex(table: seq<int>, v: int): (e: int)
    requires -|table| <= v < |table|
    ensures e in table
  {
    if v >= 0 then table[v] else table[|table| + v]
  }

  /**
   * Lines 485-489 (and 491-495, 497-501): a value past the end of the table
   * takes its last entry, any other value indexes it.
   */
  function Lookup(table: seq<int>, v: int): (e: int)
    requires |table| > 0 && v >= -|table|
    ensures e in table
  {
    if v > |table| - 1 then table[|table| - 1] else PyIndex(table, v)
  }

  /** Every looked-up value is an entry of the table; in-range values hit their own entry, larger ones the last. */
  lemma LookupCases(table: seq<int>, v: int)
    requires |table| > 0 && v >= -|table|
    ensures Lookup(table, v) in table
    ensures 0 <= v < |table| ==> Lookup(table, v) == table[v]
    ensures v >= |table| ==> Lookup(table, v) == table[|table| - 1]
  {
  }

  /** With a table bounded by [lo, hi], every output value of the band is bounded by it too. */
  lemma LookupBounded(table: seq<int>, v: int, lo: int, hi: int)
    requires |table| > 0 && v >= -|table|
    requires forall k :: 0 <= k < |table| ==> lo <= table[k] <= hi
    ensures lo <= Lookup(table, v) <= hi
  {
  }

  /** The test of line 483 as written: the red sample is valid, a mask is configured and it holds 255. */
  predicate GateAsWritten(red: Block, mask: Option<Block>, x: nat, y: nat)
    requires x < |red.noData| && y < |red.noData[x]|
    requires mask.Some? ==> x < |mask.value.values| && y < |mask.value.values[x]|
  {
    !red.noData[x][y] && mask.Some? && Trunc(mask.value.values[x][y]) == 255
  }

  /** As written, a run without a cutout mask writes no pixel: every tile comes out transparent. */
  lemma UnmaskedGateAsWrittenNeverPasses(red: Block, x: nat, y: nat)
    requires x < |red.noData| && y < |red.noData[x]|
    ensures !GateAsWritten(red, None, x, y)
  {
  }

  /** The intended gate: the red sample is valid and, when a mask is configured, it holds 255. */
  predicate Gate(red: Block, mask: Option<Block>, x: nat, y: nat)
    requires x < |red.noData| && y < |red.noData[x]|
    requires mask.Some? ==> x < |mask.value.values| && y < |mask.value.values[x]|
  {
    !red.noData[x][y] && (mask.None? || Trunc(mask.value.values[x][y]) == 255)
  }

  /** With a mask both gates agree; without one the intended gate passes exactly the valid samples. */
  lemma GateAgreesWhenMasked(red: Block, mask: Option<Block>, x: nat, y: nat)
    requires x < |red.noData| && y < |red.noData[x]|
    requires mask.Some? ==> x < |mask.value.values| && y < |mask.value.values[x]|
    ensures mask.Some? ==> (Gate(red, mask, x, y) <==> GateAsWritten(red, mask, x, y))
    ensures mask.None? ==> (Gate(red, mask, x, y) <==> !red.noData[x][y])
  {
  }

  /** The two gates part on a valid sample of an unmasked run. */
  lemma GatesDifferWithoutMask()
    ensures var red := Block([[0.0]], [[false]]);
      Gate(red, None, 0, 0) && !GateAsWritten(red, None, 0, 0)
  {
  }

  /** Which test of line 483 a tile is written with: the code as written, or the corrected gate. */
  datatype GateRule = AsWritten | Corrected

  predicate Opens(rule: GateRule, red: Block, mask: Option<Block>, x: nat, y: nat)
    requires x < |red.noData| && y < |red.noData[x]|
    requires mask.Some? ==> x < |mask.value.values| && y < |mask.value.values[x]|
  {
    match rule
    case AsWritten => GateAsWritten(red, mask, x, y)
    case Corrected => Gate(red, mask, x, y)
  }

  /** The blocks and tables of one tile. */
  datatype TileInput = TileInput(red: Block, green: Block, blue: Block, mask: Option<Block>, tables: Tables)

  predicate InputShaped(t: TileInput, h: nat, w: nat)
  {
    && Shaped(t.red, h, w) && Shaped(t.green, h, w) && Shaped(t.blue, h, w)
    && (t.mask.Some? ==> Shaped(t.mask.value, h, w))
  }

  predicate Passes(t: TileInput, rule: GateRule, h: nat, w: nat, x: nat, y: nat)
    requires InputShaped(t, h, w) && x < h && y < w
  {
    Opens(rule, t.red, t.mask, x, y)
  }

  /**
   * The tables can be read wherever the gate lets a pixel through (no
   * IndexError); a table is only read for such pixels, so a tile where no
   * pixel passes needs nothing of them.
   */
  predicate LookupsDefined(t: TileInput, rule: GateRule, h: nat, w: nat)
    requires InputShaped(t, h, w)
  {
    forall x, y :: 0 <= x < h && 0 <= y < w && Passes(t, rule, h, w, x, y) ==>
      && |t.tables.red| > 0 && Trunc(t.red.values[x][y]) >= -|t.tables.red|
      && |t.tables.green| > 0 && Trunc(t.green.values[x][y]) >= -|t.tables.green|
      && |t.tables.blue| > 0 && Trunc(t.blue.values[x][y]) >= -|t.tables.blue|
  }

  /** The band value written at (x, y), 0 for a pixel the gate stops. */
  function BandPixel(t: TileInput, rule: GateRule, h: nat, w: nat, band: Block, table: seq<int>, x: nat, y: nat): (v: int)
    requires InputShaped(t, h, w) && x < h && y < w
    requires Shaped(band, h, w)
    requires Passes(t, rule, h, w, x, y) ==> |table| > 0 && Trunc(band.values[x][y]) >= -|table|
    ensures Passes(t, rule, h, w, x, y) ==> v in table
  {
    if Passes(t, rule, h, w, x, y) then Lookup(table, Trunc(band.values[x][y])) else 0
  }

  /** The alpha written at (x, y): opaque exactly where the gate passes. */
  function AlphaPixel(t: TileInput, rule: GateRule, h: nat, w: nat, x: nat, y: nat): (a: int)
    requires InputShaped(t, h, w) && x < h && y < w
    ensures a == 255 || a == 0
    ensures a == 255 <==> Passes(t, rule, h, w, x, y)
  {
    if Passes(t, rule, h, w, x, y) then 255 else 0
  }

  // (i, j) comes before (x, y) in the order of the two loops.
  predicate Before(i: int, j: int, x: int, y: int)
  {
    i < x || (i == x && j < y)
  }

  /**
   * Lines 471-503: allocates the four zeroed bands and fills them pixel by
   * pixel; a pixel that passes the gate of `rule` gets its table values and
   * alpha 255, every other pixel keeps 0.
   */
  method RasterizeTile(t: TileInput, rule: GateRule, h: nat, w: nat) returns (red: array2<int>, green: array2<int>, blue: array2<int>, alpha: array2<int>)
    requires InputShaped(t, h, w) && LookupsDefined(t, rule, h, w)
    ensures fresh(red) && fresh(green) && fresh(blue) && fresh(alpha)
    ensures red.Length0 == h && red.Length1 == w && green.Length0 == h && green.Length1 == w
    ensures blue.Length0 == h && blue.Length1 == w && alpha.Length0 == h && alpha.Length1 == w
    ensures forall x, y :: 0 <= x < h && 0 <= y < w ==>
      && red[x, y] == BandPixel(t, rule, h, w, t.red, t.tables.red, x, y)
      && green[x, y] == BandPixel(t, rule, h, w, t.green, t.tables.green, x, y)
      && blue[x, y] == BandPixel(t, rule, h, w, t.blue, t.tables.blue, x, y)
      && alpha[x, y] == AlphaPixel(t, rule, h, w, x, y)
  {
    red := new int[h, w]((_, _) => 0);
    green := new int[h, w]((_, _) => 0);
    blue := new int[h, w]((_, _) => 0);
    alpha := new int[h, w]((_, _) => 0);
    for x := 0 to h
      invariant forall i, j :: 0 <= i < h && 0 <= j < w ==>
        && red[i, j] == (if i < x then BandPixel(t, rule, h, w, t.red, t.tables.red, i, j) else 0)
        && green[i, j] == (if i < x then BandPixel(t, rule, h, w, t.green, t.tables.green, i, j) else 0)
        && blue[i, j] == (if i < x then BandPixel(t, rule, h, w, t.blue, t.tables.blue, i, j) else 0)
        && alpha[i, j] == (if i < x then AlphaPixel(t, rule, h, w, i, j) else 0)
    {
      for y := 0 to w
        invariant forall i, j :: 0 <= i < h && 0 <= j < w ==>
          && red[i, j] == (if Before(i, j, x, y) then BandPixel(t, rule, h, w, t.red, t.tables.red, i, j) else 0)
          && green[i, j] == (if Before(i, j, x, y) then BandPixel(t, rule, h, w, t.green, t.tables.green, i, j) else 0)
          && blue[i, j] == (if Before(i, j, x, y) then BandPixel(t, rule, h, w, t.blue, t.tables.blue, i, j) else 0)
          && alpha[i, j] == (if Before(i, j, x, y) then AlphaPixel(t, rule, h, w, i, j) else 0)
      {
        if Opens(rule, t.red, t.mask, x, y) {
          red[x, y] := Lookup(t.tables.red, Trunc(t.red.values[x][y]));
          green[x, y] := Lookup(t.tables.green, Trunc(t.green.values[x][y]));
          blue[x, y] := Lookup(t.tables.blue, Trunc(t.blue.values[x][y]));
          alpha[x, y] := 255;
        }
      }
    }
  }

  /** A pixel is transparent exactly when its bands were left at 0 by the gate of its rule. */
  lemma TransparentPixelsAreBlack(t: TileInput, rule: GateRule, h: nat, w: nat, x: nat, y: nat)
    requires InputShaped(t, h, w) && LookupsDefined(t, rule, h, w) && x < h && y < w
    ensures AlphaPixel(t, rule, h, w, x, y) == 0 ==>
      && BandPixel(t, rule, h, w, t.red, t.tables.red, x, y) == 0
      && BandPixel(t, rule, h, w, t.green, t.tables.green, x, y) == 0
      && BandPixel(t, rule, h, w, t.blue, t.tables.blue, x, y) == 0
    ensures rule == Corrected ==> (AlphaPixel(t, rule, h, w, x, y) == 255 <==>
      !t.red.noData[x][y] && (t.mask.None? || Trunc(t.mask.value.values[x][y]) == 255))
    ensures rule == AsWritten ==> (AlphaPixel(t, rule, h, w, x, y) == 255 <==>
      !t.red.noData[x][y] && t.mask.Some? && Trunc(t.mask.value.values[x][y]) == 255)
  {
  }

  /**
   * The code as written, on a whole tile of a run without a cutout mask:
   * no table is read, and every pixel of the four bands stays 0, so the
   * tile is written fully transparent.
   */
  lemma UnmaskedTileAsWrittenIsTransparent(t: TileInput, h: nat, w: nat)
    requires InputShaped(t, h, w) && t.mask.None?
    ensures LookupsDefined(t, AsWritten, h, w)
    ensures forall x, y :: 0 <= x < h && 0 <= y < w ==>
      && AlphaPixel(t, AsWritten, h, w, x, y) == 0
      && BandPixel(t, AsWritten, h, w, t.red, t.tables.red, x, y) == 0
      && BandPixel(t, AsWritten, h, w, t.green, t.tables.green, x, y) == 0
      && BandPixel(t, AsWritten, h, w, t.blue, t.tables.blue, x, y) == 0
  {
  }

  /** An opaque pixel carries the table entries of its three samples, clamped to the last entry. */
  lemma OpaquePixelValues(t: TileInput, rule: GateRule, h: nat, w: nat, x: nat, y: nat)
    requires InputShaped(t, h, w) && LookupsDefined(t, rule, h, w) && x < h && y < w
    requires AlphaPixel(t, rule, h, w, x, y) == 255
    ensures BandPixel(t, rule, h, w, t.red, t.tables.red, x, y) in t.tables.red
    ensures BandPixel(t, rule, h, w, t.green, t.tables.green, x, y) in t.tables.green
    ensures BandPixel(t, rule, h, w, t.blue, t.tables.blue, x, y) in t.tables.blue
    ensures Trunc(t.red.values[x][y]) >= |t.tables.red| ==>
      BandPixel(t, rule, h, w, t.red, t.tables.red, x, y) == t.tables.red[|t.tables.red| - 1]
    ensures Trunc(t.green.values[x][y]) >= |t.tables.green| ==>
      BandPixel(t, rule, h, w, t.green, t.tables.green, x, y) == t.tables.green[|t.tables.green| - 1]
    ensures Trunc(t.blue.values[x][y]) >= |t.tables.blue| ==>
      BandPixel(t, rule, h, w, t.blue, t.tables.blue, x, y) == t.tables.blue[|t.tables.blue| - 1]
  {
    LookupCases(t.tables.red, Trunc(t.red.values[x][y]));
    LookupCases(t.tables.green, Trunc(t.green.values[x][y]));
    LookupCases(t.tables.blue, Trunc(t.blue.values[x][y]));
  }
}
