/** The passes of an interlaced PNG (section 2.6 of RFC 2083) and their sizes. */
module Adam7 {

  /** A pass's column start and step, and row start and step. */
  datatype Grid = Grid(x0: nat, dx: nat, y0: nat, dy: nat)

  datatype Pass = Pass(pixels: nat, rows: nat)

  const ADAM7 := [
    Grid(0, 8, 0, 8), Grid(4, 8, 0, 8), Grid(0, 4, 4, 8), Grid(2, 4, 0, 4),
    Grid(0, 2, 2, 4), Grid(1, 2, 0, 2), Grid(0, 1, 1, 2)]

  const WHOLE := [Grid(0, 1, 0, 1)]

  /** How many of 0 .. size-1 a start and a step reach. */
  function Steps(size: nat, start: nat, step: nat): nat {
    if step == 0 || size <= start then 0 else (size - start + step - 1) / step
  }

  function PassOf(g: Grid, width: nat, height: nat): Pass {
    Pass(Steps(width, g.x0, g.dx), Steps(height, g.y0, g.dy))
  }

  /** The passes that hold at least one pixel. */
  function Kept(grids: seq<Grid>, width: nat, height: nat): seq<Pass> {
    if grids == [] then []
    else
      var pass := PassOf(grids[0], width, height);
      (if pass.pixels > 0 && pass.rows > 0 then [pass] else []) + Kept(grids[1..], width, height)
  }

  function Passes(width: nat, height: nat, interlaced: bool): seq<Pass> {
    Kept(if interlaced then ADAM7 else WHOLE, width, height)
  }

  function PixelCount(passes: seq<Pass>): nat {
    if passes == [] then 0 else passes[0].pixels * passes[0].rows + PixelCount(passes[1..])
  }

  lemma {:induction false} KeptHoldPixels(grids: seq<Grid>, width: nat, height: nat)
    ensures forall p | p in Kept(grids, width, height) :: p.pixels > 0 && p.rows > 0
  {
    if grids != [] {
      KeptHoldPixels(grids[1..], width, height);
    }
  }

  lemma FirstPassKept(width: nat, height: nat, interlaced: bool)
    requires width > 0 && height > 0
    ensures Passes(width, height, interlaced) != []
  {
    var grids := if interlaced then ADAM7 else WHOLE;
    assert grids[0].x0 == 0 && grids[0].y0 == 0 && grids[0].dx > 0 && grids[0].dy > 0;
    StepsPositive(width, grids[0].dx);
    StepsPositive(height, grids[0].dy);
  }

  lemma StepsPositive(size: nat, step: nat)
    requires size > 0 && step > 0
    ensures Steps(size, 0, step) > 0
  {
    assert size + step - 1 >= step;
  }

  // ---------- every pixel is sampled exactly once ----------

  /** Column c of row r of pass p is the pixel (x, y). */
  ghost predicate Cell(width: nat, height: nat, p: int, c: int, r: int, x: int, y: int) {
    && 0 <= p < 7
    && 0 <= c < PassOf(ADAM7[p], width, height).pixels
    && 0 <= r < PassOf(ADAM7[p], width, height).rows
    && x == ADAM7[p].x0 + c * ADAM7[p].dx
    && y == ADAM7[p].y0 + r * ADAM7[p].dy
  }

  ghost function PassAt(x: nat, y: nat): (p: nat)
    ensures p < 7
  {
    if y % 2 == 1 then 6
    else if x % 2 == 1 then 5
    else if y % 4 == 2 then 4
    else if x % 4 == 2 then 3
    else if y % 8 == 4 then 2
    else if x % 8 == 4 then 1
    else 0
  }

  /** A start and step reach exactly the positions of their residue class below the size. */
  lemma StepsReach(size: nat, start: nat, step: nat, k: int)
    requires step in {1, 2, 4, 8} && 0 <= k
    ensures k < Steps(size, start, step) <==> start + k * step < size
  {
  }

  lemma Residue(x: int, start: nat, step: nat)
    requires step in {1, 2, 4, 8} && start < step && x % step == start && 0 <= x
    ensures start <= x && start + (x - start) / step * step == x
  {
  }

  lemma TwosAndMore(start: nat, k: nat)
    ensures start < 2 ==> (start + k * 2) % 2 == start && k * 2 / 2 == k
    ensures start < 4 ==> (start + k * 4) % 4 == start && k * 4 / 4 == k
    ensures start < 8 ==> (start + k * 8) % 8 == start && k * 8 / 8 == k
  {
  }

  lemma ResidueOf(start: nat, step: nat, k: nat)
    requires step in {1, 2, 4, 8} && start < step
    ensures (start + k * step) % step == start && (start + k * step - start) / step == k
  {
    TwosAndMore(start, k);
    assert start + k * step - start == k * step;
  }

  /** A pass's grid, and the residues of the pixels that belong to it. */
  lemma GridShape(p: nat)
    requires p < 7
    ensures var g := ADAM7[p];
            g.dx in {1, 2, 4, 8} && g.dy in {1, 2, 4, 8} && g.x0 < g.dx && g.y0 < g.dy
  {
  }

  lemma GridResidues(p: nat, x: nat, y: nat)
    requires p < 7
    ensures var g := ADAM7[p];
            x % g.dx == g.x0 && y % g.dy == g.y0 <==> PassAt(x, y) == p
  {
  }

  lemma CellIsPixel(width: nat, height: nat, p: int, c: int, r: int, x: int, y: int)
    requires Cell(width, height, p, c, r, x, y)
    ensures 0 <= x < width && 0 <= y < height && p == PassAt(x, y)
    ensures c == (x - ADAM7[p].x0) / ADAM7[p].dx && r == (y - ADAM7[p].y0) / ADAM7[p].dy
  {
    hide Steps, PassAt;
    GridShape(p);
    var g := ADAM7[p];
    StepsReach(width, g.x0, g.dx, c);
    StepsReach(height, g.y0, g.dy, r);
    ResidueOf(g.x0, g.dx, c);
    ResidueOf(g.y0, g.dy, r);
    GridResidues(p, x, y);
  }

  lemma PixelHasCell(width: nat, height: nat, x: nat, y: nat)
    requires x < width && y < height
    ensures var p := PassAt(x, y);
            Cell(width, height, p, (x - ADAM7[p].x0) / ADAM7[p].dx, (y - ADAM7[p].y0) / ADAM7[p].dy, x, y)
  {
    hide Steps, PassAt;
    var p := PassAt(x, y);
    var g := ADAM7[p];
    GridShape(p);
    GridResidues(p, x, y);
    Residue(x, g.x0, g.dx);
    Residue(y, g.y0, g.dy);
    StepsReach(width, g.x0, g.dx, (x - g.x0) / g.dx);
    StepsReach(height, g.y0, g.dy, (y - g.y0) / g.dy);
  }

  /** The seven passes partition the image: one pass, one column, one row for every pixel. */
  lemma PassesPartition(width: nat, height: nat, x: nat, y: nat)
    requires x < width && y < height
    ensures exists p, c, r :: Cell(width, height, p, c, r, x, y)
    ensures forall p, c, r, p', c', r' ::
              Cell(width, height, p, c, r, x, y) && Cell(width, height, p', c', r', x, y)
              ==> p == p' && c == c' && r == r'
  {
    PixelHasCell(width, height, x, y);
    forall p, c, r, p', c', r'
      | Cell(width, height, p, c, r, x, y) && Cell(width, height, p', c', r', x, y)
      ensures p == p' && c == c' && r == r'
    {
      CellIsPixel(width, height, p, c, r, x, y);
      CellIsPixel(width, height, p', c', r', x, y);
    }
  }

  // ---------- the kept passes hold every pixel ----------

  /** Taking every second of the steps, and then the others, takes them all. */
  lemma StepsHalve(size: nat)
    ensures Steps(size, 0, 8) + Steps(size, 4, 8) == Steps(size, 0, 4)
    ensures Steps(size, 0, 4) + Steps(size, 2, 4) == Steps(size, 0, 2)
    ensures Steps(size, 0, 2) + Steps(size, 1, 2) == Steps(size, 0, 1)
  {
  }

  function GridPixels(grids: seq<Grid>, width: nat, height: nat): nat {
    if grids == [] then 0
    else
      var pass := PassOf(grids[0], width, height);
      pass.pixels * pass.rows + GridPixels(grids[1..], width, height)
  }

  /** Passes dropped for being empty hold no pixel. */
  lemma {:induction false} KeptPixels(grids: seq<Grid>, width: nat, height: nat)
    ensures PixelCount(Kept(grids, width, height)) == GridPixels(grids, width, height)
  {
    hide PassOf;
    if grids != [] {
      KeptPixels(grids[1..], width, height);
      var pass, rest := PassOf(grids[0], width, height), Kept(grids[1..], width, height);
      assert pass.pixels == 0 || pass.rows == 0 ==> pass.pixels * pass.rows == 0;
      assert ([pass] + rest)[1..] == rest && [] + rest == rest;
    }
  }

  lemma SevenGrids(width: nat, height: nat)
    ensures GridPixels(ADAM7, width, height)
         == var (w, h) := ((start, step) => Steps(width, start, step), (start, step) => Steps(height, start, step));
            w(0, 8) * h(0, 8) + w(4, 8) * h(0, 8) + w(0, 4) * h(4, 8) + w(2, 4) * h(0, 4)
            + w(0, 2) * h(2, 4) + w(1, 2) * h(0, 2) + w(0, 1) * h(1, 2)
  {
    hide Steps;
    for i := 0 to 7
      invariant GridPixels(ADAM7[7 - i..], width, height)
             == (if i > 6 then Steps(width, 0, 8) * Steps(height, 0, 8) else 0)
              + (if i > 5 then Steps(width, 4, 8) * Steps(height, 0, 8) else 0)
              + (if i > 4 then Steps(width, 0, 4) * Steps(height, 4, 8) else 0)
              + (if i > 3 then Steps(width, 2, 4) * Steps(height, 0, 4) else 0)
              + (if i > 2 then Steps(width, 0, 2) * Steps(height, 2, 4) else 0)
              + (if i > 1 then Steps(width, 1, 2) * Steps(height, 0, 2) else 0)
              + (if i > 0 then Steps(width, 0, 1) * Steps(height, 1, 2) else 0)
    {
      assert ADAM7[6 - i..][1..] == ADAM7[7 - i..];
    }
    assert ADAM7[0..] == ADAM7;
  }

  /** Columns a..d and rows p..s, taken in the order the passes take them, make the whole rectangle. */
  lemma Rectangle(a: nat, b: nat, c: nat, d: nat, p: nat, q: nat, r: nat, s: nat)
    ensures a * p + b * p + (a + b) * q + c * (p + q) + (a + b + c) * r + d * (p + q + r) + (a + b + c + d) * s
         == (a + b + c + d) * (p + q + r + s)
  {
  }

  /** The pixels of each Adam7 pass, added up: columns and rows double in turn. */
  lemma Adam7Pixels(width: nat, height: nat)
    ensures var (w, h) := ((start, step) => Steps(width, start, step), (start, step) => Steps(height, start, step));
            w(0, 8) * h(0, 8) + w(4, 8) * h(0, 8) + w(0, 4) * h(4, 8) + w(2, 4) * h(0, 4)
            + w(0, 2) * h(2, 4) + w(1, 2) * h(0, 2) + w(0, 1) * h(1, 2) == width * height
  {
    hide Steps;
    StepsHalve(width);
    StepsHalve(height);
    EveryStep(width);
    EveryStep(height);
    Rectangle(Steps(width, 0, 8), Steps(width, 4, 8), Steps(width, 2, 4), Steps(width, 1, 2),
              Steps(height, 0, 8), Steps(height, 4, 8), Steps(height, 2, 4), Steps(height, 1, 2));
  }

  lemma EveryStep(size: nat)
    ensures Steps(size, 0, 1) == size
  {
  }

  /** However large the image, the kept passes hold width * height pixels between them. */
  lemma PassesHoldEveryPixel(width: nat, height: nat, interlaced: bool)
    ensures PixelCount(Passes(width, height, interlaced)) == width * height
  {
    hide Steps, PixelCount, Kept;
    KeptPixels(if interlaced then ADAM7 else WHOLE, width, height);
    if interlaced {
      SevenGrids(width, height);
      Adam7Pixels(width, height);
    } else {
      WholePixels(width, height);
    }
  }

  lemma WholePixels(width: nat, height: nat)
    ensures GridPixels(WHOLE, width, height) == width * height
  {
    assert WHOLE[1..] == [];
    assert Steps(width, 0, 1) == width && Steps(height, 0, 1) == height;
  }

  // ---------- which passes are kept, and in what order ----------

  predicate HoldsPixels(pass: Pass) { pass.pixels > 0 && pass.rows > 0 }

  ghost predicate Rising(at: seq<nat>) { forall i, j | 0 <= i < j < |at| :: at[i] < at[j] }

  /** The numbers of the passes kept: those with a pixel, in order. */
  lemma {:induction false} KeptInOrder(grids: seq<Grid>, width: nat, height: nat) returns (at: seq<nat>)
    ensures |at| == |Kept(grids, width, height)| && Rising(at)
    ensures forall i | 0 <= i < |at| ::
              at[i] < |grids| && Kept(grids, width, height)[i] == PassOf(grids[at[i]], width, height)
    ensures forall p | 0 <= p < |grids| :: p in at <==> HoldsPixels(PassOf(grids[p], width, height))
    decreases |grids|
  {
    hide PassOf, HoldsPixels;
    if grids == [] {
      return [];
    }
    var n := |grids| - 1;
    at := KeptInOrder(grids[..n], width, height);
    KeptLast(grids, width, height);
    assert forall p | 0 <= p < n :: grids[..n][p] == grids[p];
    if HoldsPixels(PassOf(grids[n], width, height)) {
      at := at + [n];
    }
  }

  lemma {:induction false} KeptLast(grids: seq<Grid>, width: nat, height: nat)
    requires grids != []
    ensures var last, before := PassOf(grids[|grids| - 1], width, height), Kept(grids[..|grids| - 1], width, height);
            Kept(grids, width, height) == before + (if HoldsPixels(last) then [last] else [])
    decreases |grids|
  {
    hide PassOf;
    var n := |grids| - 1;
    if n > 0 {
      assert grids[1..][..n - 1] == grids[..n][1..];
      KeptLast(grids[1..], width, height);
    }
  }

  /** Some pixel of the image lies in column c of row r of pass p. */
  ghost predicate HasCell(width: nat, height: nat, p: int, c: int, r: int) {
    exists x, y :: Cell(width, height, p, c, r, x, y)
  }

  /**
   * The passes of an interlaced image are the numbered passes that hold a pixel, in rising order, each
   * as wide and as high as its cells. An image that is not interlaced is one pass, the whole of it.
   */
  lemma PassesInOrder(width: nat, height: nat) returns (at: seq<nat>)
    ensures |at| == |Passes(width, height, true)| && Rising(at)
    ensures forall p: nat :: p in at <==> HasCell(width, height, p, 0, 0)
    ensures forall i, c, r | 0 <= i < |at| :: HasCell(width, height, at[i], c, r) <==>
              0 <= c < Passes(width, height, true)[i].pixels && 0 <= r < Passes(width, height, true)[i].rows
    ensures Passes(width, height, false) == if width > 0 && height > 0 then [Pass(width, height)] else []
  {
    at := KeptInOrder(ADAM7, width, height);
    forall p, c, r
      ensures HasCell(width, height, p, c, r) <==>
                0 <= p < 7 && 0 <= c < PassOf(ADAM7[p], width, height).pixels
                && 0 <= r < PassOf(ADAM7[p], width, height).rows
    {
      CellThere(width, height, p, c, r);
    }
    EveryStep(width);
    EveryStep(height);
    assert WHOLE[1..] == [] && PassOf(WHOLE[0], width, height) == Pass(width, height);
    assert Kept(WHOLE[1..], width, height) == [];
  }

  lemma CellThere(width: nat, height: nat, p: int, c: int, r: int)
    ensures HasCell(width, height, p, c, r) <==>
              0 <= p < 7 && 0 <= c < PassOf(ADAM7[p], width, height).pixels
              && 0 <= r < PassOf(ADAM7[p], width, height).rows
  {
    hide PassOf;
    if 0 <= p < 7 && 0 <= c < PassOf(ADAM7[p], width, height).pixels
       && 0 <= r < PassOf(ADAM7[p], width, height).rows {
      assert Cell(width, height, p, c, r, ADAM7[p].x0 + c * ADAM7[p].dx, ADAM7[p].y0 + r * ADAM7[p].dy);
    }
  }
}
