/** The magnetic dot grid of js/main.js (`setupMagneticDotGrid`), as integer
    geometry: which lattice points one frame of `draw` visits, in which
    order, and for each whether the pointer's influence applies.

    Inside the influence radius the source moves the dot along the
    pointer-to-dot direction by a floating-point amount (at most the push
    strength, 15 pixels) and fades it; that displacement, and the dot radius
    of 1 pixel it is drawn with, are not modelled, only the decision that it
    happens. */
module DotGrid {
  import Theme
  import opened Wrappers

  const Spacing := 24
  const MouseRadius := 120
  /** Pointer position used before any mouse move and after the mouse leaves. */
  const Offscreen := -1000

  const DarkDotColor := "rgba(26, 26, 26, 1)"
  const LightDotColor := "rgba(200, 196, 190, 1)"

  datatype Point = Point(x: int, y: int)

  /** One dot of a frame. `Resting(p)` is drawn at p itself with opacity 1;
      `Pushed(p)` is the dot of grid point p moved away from the pointer. */
  datatype Dot = Resting(at: Point) | Pushed(from: Point)

  /** A point of the lattice `draw` walks: positive multiples of the spacing
      strictly inside the canvas. */
  predicate OnLattice(p: Point, width: int, height: int) {
    0 < p.x < width && 0 < p.y < height && p.x % Spacing == 0 && p.y % Spacing == 0
  }

  /** p comes strictly before q in the order of the nested loops: by x, then by y. */
  predicate Before(p: Point, q: Point) {
    p.x < q.x || (p.x == q.x && p.y < q.y)
  }

  /** The inner loop from y on: the points (x, y), (x, y + spacing), ... below height. */
  function ColumnFrom(x: int, y: int, height: int): seq<Point>
    decreases height - y
  {
    if y >= height then [] else [Point(x, y)] + ColumnFrom(x, y + Spacing, height)
  }

  /** The outer loop from x on: one column per x, x + spacing, ... below width. */
  function ColumnsFrom(x: int, width: int, height: int): seq<Point>
    decreases width - x
  {
    if x >= width then [] else ColumnFrom(x, Spacing, height) + ColumnsFrom(x + Spacing, width, height)
  }

  /** The grid points of one frame, in drawing order: both loops start at the spacing, not at 0. */
  function GridPoints(width: int, height: int): seq<Point> {
    ColumnsFrom(Spacing, width, height)
  }

  /** The inner loop's points all lie in column x, from y below the height, on
      the spacing, strictly increasing in y. */
  lemma {:induction false} ColumnFromShape(x: int, y: int, height: int)
    ensures forall k :: 0 <= k < |ColumnFrom(x, y, height)| ==>
      ColumnFrom(x, y, height)[k].x == x &&
      y <= ColumnFrom(x, y, height)[k].y < height &&
      (ColumnFrom(x, y, height)[k].y - y) % Spacing == 0
    ensures forall i, j :: 0 <= i < j < |ColumnFrom(x, y, height)| ==>
      ColumnFrom(x, y, height)[i].y < ColumnFrom(x, y, height)[j].y
    decreases height - y
  {
    if y < height {
      var rest := ColumnFrom(x, y + Spacing, height);
      ColumnFromShape(x, y + Spacing, height);
      var r := ColumnFrom(x, y, height);
      assert r == [Point(x, y)] + rest;
      forall k | 1 <= k < |r|
        ensures r[k] == rest[k - 1]
      {
      }
    }
  }

  /** The outer loop's points lie from x below the width on the spacing, in loop order. */
  lemma {:induction false} ColumnsFromShape(x: int, width: int, height: int)
    ensures forall k :: 0 <= k < |ColumnsFrom(x, width, height)| ==>
      x <= ColumnsFrom(x, width, height)[k].x < width &&
      (ColumnsFrom(x, width, height)[k].x - x) % Spacing == 0
    ensures forall i, j :: 0 <= i < j < |ColumnsFrom(x, width, height)| ==>
      Before(ColumnsFrom(x, width, height)[i], ColumnsFrom(x, width, height)[j])
    decreases width - x
  {
    if x < width {
      var col := ColumnFrom(x, Spacing, height);
      var rest := ColumnsFrom(x + Spacing, width, height);
      ColumnFromShape(x, Spacing, height);
      ColumnsFromShape(x + Spacing, width, height);
      var r := ColumnsFrom(x, width, height);
      assert r == col + rest;
      forall k | 0 <= k < |r|
        ensures x <= r[k].x < width && (r[k].x - x) % Spacing == 0
      {
        if k >= |col| {
          assert r[k] == rest[k - |col|];
        }
      }
      forall i, j | 0 <= i < j < |r|
        ensures Before(r[i], r[j])
      {
        if j < |col| {
        } else if i < |col| {
          assert r[j] == rest[j - |col|];
        } else {
          assert r[i] == rest[i - |col|] && r[j] == rest[j - |col|];
        }
      }
    }
  }

  lemma {:induction false} ColumnFromHas(x: int, y: int, height: int, p: Point)
    requires p.x == x && y <= p.y < height && (p.y - y) % Spacing == 0
    ensures p in ColumnFrom(x, y, height)
    decreases height - y
  {
    if p.y != y {
      ColumnFromHas(x, y + Spacing, height, p);
    }
  }

  lemma {:induction false} ColumnsFromHas(x: int, width: int, height: int, p: Point)
    requires x <= p.x < width && (p.x - x) % Spacing == 0
    requires Spacing <= p.y < height && p.y % Spacing == 0
    ensures p in ColumnsFrom(x, width, height)
    decreases width - x
  {
    if p.x == x {
      ColumnFromHas(x, Spacing, height, p);
    } else {
      ColumnsFromHas(x + Spacing, width, height, p);
    }
  }

  /** A frame visits exactly the lattice points, each once, x-major. */
  lemma GridPointsExactly(width: int, height: int)
    ensures forall p :: p in GridPoints(width, height) <==> OnLattice(p, width, height)
    ensures forall i, j :: 0 <= i < j < |GridPoints(width, height)| ==>
      Before(GridPoints(width, height)[i], GridPoints(width, height)[j])
  {
    var g := GridPoints(width, height);
    ColumnsFromShape(Spacing, width, height);
    forall p | OnLattice(p, width, height)
      ensures p in g
    {
      ColumnsFromHas(Spacing, width, height, p);
    }
    forall p | p in g
      ensures OnLattice(p, width, height)
    {
      var k :| 0 <= k < |g| && g[k] == p;
      ColumnsFromPointsOnLattice(Spacing, width, height, k);
    }
  }

  lemma {:induction false} ColumnsFromPointsOnLattice(x: int, width: int, height: int, k: int)
    requires Spacing <= x && x % Spacing == 0
    requires 0 <= k < |ColumnsFrom(x, width, height)|
    ensures OnLattice(ColumnsFrom(x, width, height)[k], width, height)
    decreases width - x
  {
    var col := ColumnFrom(x, Spacing, height);
    var rest := ColumnsFrom(x + Spacing, width, height);
    assert ColumnsFrom(x, width, height) == col + rest;
    if k < |col| {
      ColumnFromShape(x, Spacing, height);
      ColumnsFromShape(x, width, height);
    } else {
      assert ColumnsFrom(x, width, height)[k] == rest[k - |col|];
      ColumnsFromPointsOnLattice(x + Spacing, width, height, k - |col|);
    }
  }

  lemma {:induction false} ColumnsFromFlat(x: int, width: int, height: int)
    requires height <= Spacing
    ensures ColumnsFrom(x, width, height) == []
    decreases width - x
  {
    if x < width {
      ColumnsFromFlat(x + Spacing, width, height);
    }
  }

  /** A canvas no wider (or no taller) than the spacing gets no dots. */
  lemma NarrowCanvasEmpty(width: int, height: int)
    requires width <= Spacing || height <= Spacing
    ensures GridPoints(width, height) == []
  {
    if width > Spacing {
      ColumnsFromFlat(Spacing, width, height);
    }
  }

  function SquaredDistance(p: Point, mouseX: int, mouseY: int): nat {
    (p.x - mouseX) * (p.x - mouseX) + (p.y - mouseY) * (p.y - mouseY)
  }

  /** The in/out decision of `draw`: `distance < mouseRadius`, on squared integer distance. */
  function Influence(p: Point, mouseX: int, mouseY: int): Dot {
    if SquaredDistance(p, mouseX, mouseY) < MouseRadius * MouseRadius then Pushed(p) else Resting(p)
  }

  /** A dot rests at its own point exactly when its squared distance to the
      pointer is at least the radius squared; otherwise it is pushed. */
  lemma InfluenceDecision(p: Point, mouseX: int, mouseY: int)
    ensures Influence(p, mouseX, mouseY) == Resting(p) <==>
      SquaredDistance(p, mouseX, mouseY) >= MouseRadius * MouseRadius
    ensures Influence(p, mouseX, mouseY) == Pushed(p) <==>
      SquaredDistance(p, mouseX, mouseY) < MouseRadius * MouseRadius
  {
  }

  lemma FarCoordinate(a: int)
    requires a >= MouseRadius || a <= -MouseRadius
    ensures a * a >= MouseRadius * MouseRadius
  {
    if a >= MouseRadius {
      assert a * a >= MouseRadius * a;
    } else {
      assert a * a >= MouseRadius * (-a);
    }
  }

  /** A point a full radius or more away along either axis is not influenced. */
  lemma FarPointRests(p: Point, mouseX: int, mouseY: int)
    requires p.x - mouseX >= MouseRadius || mouseX - p.x >= MouseRadius ||
             p.y - mouseY >= MouseRadius || mouseY - p.y >= MouseRadius
    ensures Influence(p, mouseX, mouseY) == Resting(p)
  {
    if p.x - mouseX >= MouseRadius || mouseX - p.x >= MouseRadius {
      FarCoordinate(p.x - mouseX);
    } else {
      FarCoordinate(p.y - mouseY);
    }
  }

  /** With the pointer parked off screen, no dot of any frame is influenced. */
  lemma OffscreenFrameRests(width: int, height: int)
    ensures forall p :: p in GridPoints(width, height) ==> Influence(p, Offscreen, Offscreen) == Resting(p)
  {
    GridPointsExactly(width, height);
    forall p | p in GridPoints(width, height)
      ensures Influence(p, Offscreen, Offscreen) == Resting(p)
    {
      FarPointRests(p, Offscreen, Offscreen);
    }
  }

  /** The colour of every dot of a frame. */
  function DotColor(isDark: bool): (c: string)
    ensures c == DarkDotColor || c == LightDotColor
    ensures c == DarkDotColor <==> isDark
  {
    if isDark then DarkDotColor else LightDotColor
  }

  /** The influence decision for each of the points, in order. */
  function Decide(points: seq<Point>, mouseX: int, mouseY: int): (dots: seq<Dot>)
    ensures |dots| == |points|
  {
    if |points| == 0 then []
    else Decide(points[..|points| - 1], mouseX, mouseY) + [Influence(points[|points| - 1], mouseX, mouseY)]
  }

  /** Position k of the decisions is the decision for point k. */
  lemma {:induction false} DecideAt(points: seq<Point>, mouseX: int, mouseY: int, k: int)
    requires 0 <= k < |points|
    ensures Decide(points, mouseX, mouseY)[k] == Influence(points[k], mouseX, mouseY)
    decreases |points|
  {
    var init := points[..|points| - 1];
    if k < |init| {
      DecideAt(init, mouseX, mouseY, k);
    } else if |init| > 0 {
      DecideAt(init, mouseX, mouseY, 0);
    }
  }

  lemma {:induction false} DecideAppend(a: seq<Point>, b: seq<Point>, mouseX: int, mouseY: int)
    ensures Decide(a + b, mouseX, mouseY) == Decide(a, mouseX, mouseY) + Decide(b, mouseX, mouseY)
    decreases |b|
  {
    if |b| == 0 {
      assert a + b == a;
    } else {
      var init := b[..|b| - 1];
      assert (a + b)[..|a + b| - 1] == a + init;
      DecideAppend(a, init, mouseX, mouseY);
    }
  }

  /** With the pointer parked off screen, every dot of a frame rests at its own grid point. */
  lemma OffscreenFrameAtRest(width: int, height: int, k: int)
    requires 0 <= k < |GridPoints(width, height)|
    ensures Decide(GridPoints(width, height), Offscreen, Offscreen)[k] == Resting(GridPoints(width, height)[k])
  {
    var g := GridPoints(width, height);
    DecideAt(g, Offscreen, Offscreen, k);
    ColumnsFromPointsOnLattice(Spacing, width, height, k);
    FarPointRests(g[k], Offscreen, Offscreen);
  }

  /** The inner loop of `draw` for the column at x. */
  method DrawColumn(x: int, height: nat, mouseX: int, mouseY: int) returns (dots: seq<Dot>)
    ensures dots == Decide(ColumnFrom(x, Spacing, height), mouseX, mouseY)
  {
    dots := [];
    ghost var visited: seq<Point> := [];
    var y := Spacing;
    while y < height
      invariant visited + ColumnFrom(x, y, height) == ColumnFrom(x, Spacing, height)
      invariant dots == Decide(visited, mouseX, mouseY)
      decreases height - y
    {
      var dx := x - mouseX;
      var dy := y - mouseY;
      var drawX, drawY := x, y;
      var dot := Resting(Point(drawX, drawY));
      if dx * dx + dy * dy < MouseRadius * MouseRadius {
        dot := Pushed(Point(x, y));
      }
      ghost var rest := ColumnFrom(x, y + Spacing, height);
      assert ColumnFrom(x, y, height) == [Point(x, y)] + rest;
      assert visited + ([Point(x, y)] + rest) == (visited + [Point(x, y)]) + rest;
      assert (visited + [Point(x, y)])[..|visited|] == visited;
      dots := dots + [dot];
      visited := visited + [Point(x, y)];
      y := y + Spacing;
    }
    assert ColumnFrom(x, y, height) == [];
    assert visited == ColumnFrom(x, Spacing, height);
  }

  /** One call of `draw`: the outer loop over the columns of the lattice. */
  method DrawFrame(width: nat, height: nat, mouseX: int, mouseY: int) returns (dots: seq<Dot>)
    ensures dots == Decide(GridPoints(width, height), mouseX, mouseY)
  {
    dots := [];
    ghost var visited: seq<Point> := [];
    var x := Spacing;
    while x < width
      invariant visited + ColumnsFrom(x, width, height) == GridPoints(width, height)
      invariant dots == Decide(visited, mouseX, mouseY)
      decreases width - x
    {
      var column := DrawColumn(x, height, mouseX, mouseY);
      ghost var points := ColumnFrom(x, Spacing, height);
      ghost var rest := ColumnsFrom(x + Spacing, width, height);
      assert ColumnsFrom(x, width, height) == points + rest;
      assert visited + (points + rest) == (visited + points) + rest;
      DecideAppend(visited, points, mouseX, mouseY);
      dots := dots + column;
      visited := visited + points;
      x := x + Spacing;
    }
    assert ColumnsFrom(x, width, height) == [];
    assert visited == GridPoints(width, height);
  }

  /** The renderer's closure state in `setupMagneticDotGrid`. */
  class Renderer {
    var width: nat
    var height: nat
    var mouseX: int
    var mouseY: int
    var isDark: bool

    /** Set-up: the pointer starts off screen, then `resize` and `updateTheme` run. */
    constructor (innerWidth: nat, innerHeight: nat, dataTheme: Option<string>)
      ensures width == innerWidth && height == innerHeight
      ensures mouseX == Offscreen && mouseY == Offscreen
      ensures isDark == Theme.IsDark(dataTheme)
    {
      mouseX, mouseY := Offscreen, Offscreen;
      width, height := innerWidth, innerHeight;
      isDark := Theme.IsDark(dataTheme);
    }

    /** `resize`: the canvas takes the window's size. */
    method Resize(innerWidth: nat, innerHeight: nat)
      modifies this`width, this`height
      ensures width == innerWidth && height == innerHeight
    {
      width, height := innerWidth, innerHeight;
    }

    /** `updateTheme`, run whenever `data-theme` changes. */
    method UpdateTheme(dataTheme: Option<string>)
      modifies this`isDark
      ensures isDark == Theme.IsDark(dataTheme)
    {
      isDark := Theme.IsDark(dataTheme);
    }

    /** The `mousemove` listener. */
    method MouseMove(clientX: int, clientY: int)
      modifies this`mouseX, this`mouseY
      ensures mouseX == clientX && mouseY == clientY
    {
      mouseX, mouseY := clientX, clientY;
    }

    /** The `mouseleave` listener: park the pointer off screen. */
    method MouseLeave()
      modifies this`mouseX, this`mouseY
      ensures mouseX == Offscreen && mouseY == Offscreen
    {
      mouseX, mouseY := Offscreen, Offscreen;
    }

    /** `draw`: the colour for the current theme and the dots of one frame. */
    method Draw() returns (color: string, dots: seq<Dot>)
      ensures color == DotColor(isDark)
      ensures dots == Decide(GridPoints(width, height), mouseX, mouseY)
    {
      color := DotColor(isDark);
      dots := DrawFrame(width, height, mouseX, mouseY);
    }
  }
}
