/** `LSystemRenderer`: the stateful wrapper around the turtle. It owns the
    symbol sequence, the geometry, the live cursor and stack, a draw index
    for stepwise playback, and the bounding box found by `Center`. The
    renderer is passed and returned as a value; the lines handed to the
    drawing primitive are returned in order. */
module LSystemRenderer {
  import opened Base
  import opened Grammar
  import opened Turtle

  /** Running minimum and maximum of the visited coordinates. */
  datatype Box = Box(minX: real, maxX: real, minY: real, maxY: real)

  /** The renderer's state once `SetupRender` or `Center` has set the
      cursor and `Center` has set the box; the constructors leave both
      uninitialised. The symbol list, held by reference in the source, is
      a value here. */
  datatype Renderer = Renderer(
    symbols: seq<Constant>,
    pen: Pen,
    startRot: real,
    origX: real,
    origY: real,
    cursor: Cursor,
    drawIndex: int,
    box: Box,
    windowWidth: int,
    windowHeight: int)

  /** `numeric_limits<float>::max()`, exactly. */
  const FltMax: real := 340282346638528859811704183484516925440.0

  /** `numeric_limits<float>::min()`: the smallest POSITIVE normal float,
      2^-126, not the most negative one. */
  const FltMin: real := 1.0 / 85070591730234615865843651857942052864.0

  /** The box `Center` starts its scan from. */
  const ScanStart: Box := Box(FltMax, FltMin, FltMax, FltMin)

  /** The cursor a fresh pass starts from: the origin, the start heading and
      an empty stack. */
  function Origin(r: Renderer): Cursor {
    Cursor(r.origX, r.origY, r.startRot, [])
  }

  /** `SetupRender`: reset the cursor and empty the stack. The draw index
      is NOT reset. */
  function SetupRender(r: Renderer): (r': Renderer)
    ensures r'.cursor.x == r.origX && r'.cursor.y == r.origY
    ensures r'.cursor.rot == r.startRot && r'.cursor.stack == []
    ensures r' == r.(cursor := r'.cursor)
  {
    r.(cursor := Origin(r))
  }

  /** The index playback reaches: `drawIndex + steps` clamped to the
      sequence, and 0 when that sum is not positive. */
  function Frontier(count: nat, drawIndex: int, steps: int): (f: nat)
    ensures f <= count
    ensures drawIndex + steps <= 0 ==> f == 0
    ensures 0 <= drawIndex + steps <= count ==> f == drawIndex + steps
    ensures count <= drawIndex + steps ==> f == count
  {
    if drawIndex + steps <= 0 then 0
    else if drawIndex + steps < count then drawIndex + steps
    else count
  }

  /** `RenderNextSteps`: replay the sequence from index 0 up to the new
      frontier, continuing from the live cursor (which is not reset), and
      report whether the whole sequence has been consumed. */
  method RenderNextSteps(adv: Advance, r: Renderer, steps: int) returns (r': Renderer, done: bool, drawn: seq<Segment>)
    requires Balanced(|r.cursor.stack|, r.symbols[..Frontier(|r.symbols|, r.drawIndex, steps)])
    ensures r'.drawIndex == Frontier(|r.symbols|, r.drawIndex, steps)
    ensures done <==> r'.drawIndex >= |r.symbols|
    ensures Run(adv, r.pen, r.cursor, r.symbols[..r'.drawIndex]) == Moved(r'.cursor, drawn)
    ensures r' == r.(cursor := r'.cursor, drawIndex := r'.drawIndex)
  {
    var endIndex := r.drawIndex + steps;
    var bound := if |r.symbols| < endIndex then |r.symbols| else endIndex;
    ghost var f := Frontier(|r.symbols|, r.drawIndex, steps);
    var i := 0;
    var cursor := r.cursor;
    drawn := [];
    while i < bound
      invariant 0 <= i <= f
      invariant bound <= 0 ==> i == 0
      invariant bound > 0 ==> i <= bound
      invariant Balanced(|r.cursor.stack|, r.symbols[..i])
      invariant Run(adv, r.pen, r.cursor, r.symbols[..i]) == Moved(cursor, drawn)
    {
      BalancedPrefix(|r.cursor.stack|, r.symbols[..f], i + 1);
      assert r.symbols[..f][..i + 1] == r.symbols[..i + 1];
      RunStep(adv, r.pen, r.cursor, r.symbols, i);
      var m := RenderStep(adv, r.pen, cursor, r.symbols[i].action);
      cursor := m.cursor;
      drawn := drawn + m.drawn;
      i := i + 1;
    }
    r' := r.(cursor := cursor, drawIndex := i);
    done := i >= |r.symbols|;
  }

  /** `Render`: step every index of the sequence in order from the live
      cursor; the draw index ends at the sequence length and the result is
      always true. */
  method Render(adv: Advance, r: Renderer) returns (r': Renderer, done: bool, drawn: seq<Segment>)
    requires Balanced(|r.cursor.stack|, r.symbols)
    ensures done
    ensures r'.drawIndex == |r.symbols|
    ensures Run(adv, r.pen, r.cursor, r.symbols) == Moved(r'.cursor, drawn)
    ensures r' == r.(cursor := r'.cursor, drawIndex := r'.drawIndex)
  {
    var i := 0;
    var cursor := r.cursor;
    drawn := [];
    while i < |r.symbols|
      invariant 0 <= i <= |r.symbols|
      invariant Balanced(|r.cursor.stack|, r.symbols[..i])
      invariant Run(adv, r.pen, r.cursor, r.symbols[..i]) == Moved(cursor, drawn)
    {
      BalancedPrefix(|r.cursor.stack|, r.symbols, i + 1);
      RunStep(adv, r.pen, r.cursor, r.symbols, i);
      var m := RenderStep(adv, r.pen, cursor, r.symbols[i].action);
      cursor := m.cursor;
      drawn := drawn + m.drawn;
      i := i + 1;
    }
    assert r.symbols[..i] == r.symbols;
    r' := r.(cursor := cursor, drawIndex := i);
    done := true;
  }

  /** The positions a pass from `c` visits, one after each step. */
  function Visited(adv: Advance, pen: Pen, c: Cursor, s: seq<Constant>): (v: seq<(real, real)>)
    requires Balanced(|c.stack|, s)
    ensures |v| == |s|
    decreases |s|
  {
    if |s| == 0 then []
    else
      var last := Run(adv, pen, c, s).cursor;
      Visited(adv, pen, c, s[..|s| - 1]) + [(last.x, last.y)]
  }

  /** One fold of a position into the box (the four comparisons after each
      step of the scan). */
  function Include(b: Box, p: (real, real)): Box {
    Box(if p.0 < b.minX then p.0 else b.minX,
        if p.0 > b.maxX then p.0 else b.maxX,
        if p.1 < b.minY then p.1 else b.minY,
        if p.1 > b.maxY then p.1 else b.maxY)
  }

  /** The box after folding every position, in order, into `start`. */
  function Bounds(start: Box, ps: seq<(real, real)>): Box {
    if |ps| == 0 then start else Include(Bounds(start, ps[..|ps| - 1]), ps[|ps| - 1])
  }

  predicate InBox(b: Box, p: (real, real)) {
    b.minX <= p.0 <= b.maxX && b.minY <= p.1 <= b.maxY
  }

  /** The folded box contains every position and never shrinks the start. */
  lemma {:induction false} BoundsContain(start: Box, ps: seq<(real, real)>)
    ensures forall j :: 0 <= j < |ps| ==> InBox(Bounds(start, ps), ps[j])
    ensures var b := Bounds(start, ps);
      b.minX <= start.minX && start.maxX <= b.maxX && b.minY <= start.minY && start.maxY <= b.maxY
    decreases |ps|
  {
    if |ps| > 0 {
      var init := ps[..|ps| - 1];
      BoundsContain(start, init);
      forall j | 0 <= j < |ps| - 1 ensures ps[j] == init[j] { }
    }
  }

  /** Each side of the folded box is either the start's side or a visited
      coordinate. */
  lemma {:induction false} BoundsAttained(start: Box, ps: seq<(real, real)>)
    ensures var b := Bounds(start, ps);
      && (b.minX == start.minX || exists j :: 0 <= j < |ps| && ps[j].0 == b.minX)
      && (b.maxX == start.maxX || exists j :: 0 <= j < |ps| && ps[j].0 == b.maxX)
      && (b.minY == start.minY || exists j :: 0 <= j < |ps| && ps[j].1 == b.minY)
      && (b.maxY == start.maxY || exists j :: 0 <= j < |ps| && ps[j].1 == b.maxY)
    decreases |ps|
  {
    if |ps| > 0 {
      var init := ps[..|ps| - 1];
      BoundsAttained(start, init);
      forall j | 0 <= j < |ps| - 1 ensures ps[j] == init[j] { }
    }
  }

  /** The scan loop of `Center`: reset the cursor, step through the whole
      sequence with the scan copy of the action switch and fold each
      position into the box. */
  method ScanBounds(adv: Advance, r: Renderer, start: Box) returns (cursor: Cursor, box: Box)
    requires Balanced(0, r.symbols)
    ensures cursor == Run(adv, r.pen, Origin(r), r.symbols).cursor
    ensures box == Bounds(start, Visited(adv, r.pen, Origin(r), r.symbols))
  {
    cursor := Origin(r);
    box := start;
    var i := 0;
    while i < |r.symbols|
      invariant 0 <= i <= |r.symbols|
      invariant Balanced(0, r.symbols[..i])
      invariant cursor == Run(adv, r.pen, Origin(r), r.symbols[..i]).cursor
      invariant box == Bounds(start, Visited(adv, r.pen, Origin(r), r.symbols[..i]))
    {
      BalancedPrefix(0, r.symbols, i + 1);
      assert r.symbols[..i + 1][..i] == r.symbols[..i];
      cursor := ScanStep(adv, r.pen, cursor, r.symbols[i].action);
      box := Include(box, (cursor.x, cursor.y));
      i := i + 1;
    }
    assert r.symbols[..i] == r.symbols;
  }

  /** The shift at the end of `Center`: move the box and the origin by the
      truncated offset between the box's centre and the window's centre. */
  function Recentre(r: Renderer, raw: Box): (r': Renderer)
    ensures var dx := r.origX - r'.origX; var dy := r.origY - r'.origY;
      // one whole-number shift per axis, applied to box and origin alike
      && Whole(dx) && Whole(dy)
      && r'.box == Box(raw.minX - dx, raw.maxX - dx, raw.minY - dy, raw.maxY - dy)
    // the box's centre lands within one unit of the window's centre
    ensures -1.0 < (r'.box.minX + r'.box.maxX) / 2.0 - r.windowWidth as real / 2.0 < 1.0
    ensures -1.0 < (r'.box.minY + r'.box.maxY) / 2.0 - r.windowHeight as real / 2.0 < 1.0
    // the shift is truncated toward zero: the remaining offset keeps the
    // sign of the original one
    ensures var before := (raw.minX + raw.maxX) / 2.0 - r.windowWidth as real / 2.0;
      var after := (r'.box.minX + r'.box.maxX) / 2.0 - r.windowWidth as real / 2.0;
      && (before >= 0.0 ==> 0.0 <= after < 1.0)
      && (before <= 0.0 ==> -1.0 < after <= 0.0)
    ensures var before := (raw.minY + raw.maxY) / 2.0 - r.windowHeight as real / 2.0;
      var after := (r'.box.minY + r'.box.maxY) / 2.0 - r.windowHeight as real / 2.0;
      && (before >= 0.0 ==> 0.0 <= after < 1.0)
      && (before <= 0.0 ==> -1.0 < after <= 0.0)
    ensures r' == r.(box := r'.box, origX := r'.origX, origY := r'.origY)
  {
    var diffX := (raw.maxX + raw.minX) / 2.0 - r.windowWidth as real / 2.0;
    var diffY := (raw.maxY + raw.minY) / 2.0 - r.windowHeight as real / 2.0;
    var dx := Trunc(diffX) as real;
    var dy := Trunc(diffY) as real;
    r.(box := Box(raw.minX - dx, raw.maxX - dx, raw.minY - dy, raw.maxY - dy),
       origX := r.origX - dx, origY := r.origY - dy)
  }

  /** `Center`: scan from the origin starting from `ScanStart`, then
      recentre. The cursor is left where the scan ended. */
  method Center(adv: Advance, r: Renderer) returns (r': Renderer)
    requires Balanced(0, r.symbols)
    ensures r' == Recentre(r, Bounds(ScanStart, Visited(adv, r.pen, Origin(r), r.symbols)))
                   .(cursor := Run(adv, r.pen, Origin(r), r.symbols).cursor)
  {
    var cursor, box := ScanBounds(adv, r, ScanStart);
    r' := Recentre(r, box).(cursor := cursor);
  }

  /** Every position the scan visits lies in the raw box, whose maximum is
      never below `FltMin`; after the recentring shift the same positions,
      moved by that shift, lie in the stored box. */
  lemma CenterBoxContainsPath(adv: Advance, r: Renderer)
    requires Balanced(0, r.symbols)
    ensures var ps := Visited(adv, r.pen, Origin(r), r.symbols);
      var raw := Bounds(ScanStart, ps);
      && raw.maxX >= FltMin && raw.maxY >= FltMin
      && (forall j :: 0 <= j < |ps| ==> InBox(raw, ps[j]))
      && var r' := Recentre(r, raw);
         var dx := r.origX - r'.origX; var dy := r.origY - r'.origY;
         forall j :: 0 <= j < |ps| ==> InBox(r'.box, (ps[j].0 - dx, ps[j].1 - dy))
  {
    BoundsContain(ScanStart, Visited(adv, r.pen, Origin(r), r.symbols));
  }

  /** The box the sentinel was evidently meant to give: start the maxima
      from the lowest float instead of the smallest positive one. */
  const IntendedScanStart: Box := Box(FltMax, -FltMax, FltMax, -FltMax)

  /** `Center` with the intended sentinel. */
  method CenterIntended(adv: Advance, r: Renderer) returns (r': Renderer)
    requires Balanced(0, r.symbols)
    ensures r' == Recentre(r, Bounds(IntendedScanStart, Visited(adv, r.pen, Origin(r), r.symbols)))
                   .(cursor := Run(adv, r.pen, Origin(r), r.symbols).cursor)
  {
    var cursor, box := ScanBounds(adv, r, IntendedScanStart);
    r' := Recentre(r, box).(cursor := cursor);
  }

  /** Positions within float range. */
  predicate InFloatRange(ps: seq<(real, real)>) {
    forall j :: 0 <= j < |ps| ==> -FltMax <= ps[j].0 <= FltMax && -FltMax <= ps[j].1 <= FltMax
  }

  /** With the intended sentinel, each side of the box of a non-empty path
      is a visited coordinate: the box is the tight bounding box. */
  lemma {:induction false} IntendedBoundsTight(ps: seq<(real, real)>)
    requires |ps| > 0 && InFloatRange(ps)
    ensures var b := Bounds(IntendedScanStart, ps);
      && (forall j :: 0 <= j < |ps| ==> InBox(b, ps[j]))
      && (exists j :: 0 <= j < |ps| && ps[j].0 == b.minX)
      && (exists j :: 0 <= j < |ps| && ps[j].0 == b.maxX)
      && (exists j :: 0 <= j < |ps| && ps[j].1 == b.minY)
      && (exists j :: 0 <= j < |ps| && ps[j].1 == b.maxY)
  {
    var b := Bounds(IntendedScanStart, ps);
    BoundsContain(IntendedScanStart, ps);
    BoundsAttained(IntendedScanStart, ps);
    assert InBox(b, ps[0]);
  }

  /** As written, every path whose post-step coordinates all lie below
      `FltMin` (in particular every path left of and below zero) gets a box
      whose maxima are `FltMin`, a value no visited position has; with the
      intended sentinel the maxima of a non-empty such path are visited
      coordinates, below `FltMin`. */
  lemma {:induction false} SentinelHidesNegativeMaximum(ps: seq<(real, real)>)
    requires forall j :: 0 <= j < |ps| ==> ps[j].0 < FltMin && ps[j].1 < FltMin
    ensures var b := Bounds(ScanStart, ps);
      && b.maxX == FltMin && b.maxY == FltMin
      && (forall j :: 0 <= j < |ps| ==> ps[j].0 != b.maxX && ps[j].1 != b.maxY)
    ensures |ps| > 0 && InFloatRange(ps) ==>
      var b := Bounds(IntendedScanStart, ps);
      b.maxX < FltMin && b.maxY < FltMin
  {
    BoundsContain(ScanStart, ps);
    BoundsAttained(ScanStart, ps);
    if |ps| > 0 && InFloatRange(ps) {
      IntendedBoundsTight(ps);
    }
  }

  /** The smallest such path: one step to `(-10, -10)`. */
  lemma SentinelExample()
    ensures Bounds(ScanStart, [(-10.0, -10.0)]).maxX == FltMin
    ensures Bounds(IntendedScanStart, [(-10.0, -10.0)]).maxX == -10.0
  {
    var ps := [(-10.0, -10.0)];
    assert ps[..0] == [];
  }
}
