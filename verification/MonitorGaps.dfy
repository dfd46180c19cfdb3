/**
 The parts of the virtual desktop that no monitor shows.

 `MonitorGapRects` samples the bounding box on a grid and joins uncovered cells of a row
 into rectangles.  Coordinates are whole pixels.
 */
module MonitorGaps {
  import opened Outcomes

  datatype Rect = Rect(x: int, y: int, width: int, height: int)

  datatype Screen = Screen(bounds: Rect, monitors: seq<Rect>)

  function Min(a: int, b: int): int { if a <= b then a else b }

  function Max(a: int, b: int): int { if a >= b then a else b }

  predicate Contains(r: Rect, x: int, y: int) {
    r.x <= x < r.x + r.width && r.y <= y < r.y + r.height
  }

  predicate IsCoveredByMonitor(screen: Screen, x: int, y: int) {
    exists i :: 0 <= i < |screen.monitors| && Contains(screen.monitors[i], x, y)
  }

  predicate Overlap(a: Rect, b: Rect) {
    a.x < b.x + b.width && a.x + a.width > b.x && a.y < b.y + b.height && a.y + a.height > b.y
  }

  predicate IntersectsAnyMonitor(screen: Screen, rect: Rect) {
    exists i :: 0 <= i < |screen.monitors| && Overlap(rect, screen.monitors[i])
  }

  // ---------------------------------------------------------------------------
  // The grid
  // ---------------------------------------------------------------------------

  /** The grid line at or before `p`, counting in steps from `origin`. */
  function CellStart(origin: int, step: int, p: int): (start: int)
    requires step >= 1 && p >= origin
    ensures origin <= start <= p < start + step
    decreases p - origin
  {
    if p < origin + step then origin else CellStart(origin + step, step, p)
  }

  predicate OnGrid(origin: int, step: int, p: int)
    requires step >= 1
  {
    p >= origin && CellStart(origin, step, p) == p
  }

  /** From a grid line, the next `step` pixels share its cell and the one after starts a new one. */
  lemma {:induction false} CellOf(origin: int, step: int, line: int, p: int)
    requires step >= 1 && OnGrid(origin, step, line)
    ensures line <= p < line + step ==> CellStart(origin, step, p) == line
    ensures OnGrid(origin, step, line + step)
    ensures line <= p ==> line <= CellStart(origin, step, p)
    decreases line - origin
  {
    if line == origin {
      assert CellStart(origin, step, origin + step) == CellStart(origin + step, step, origin + step);
    } else {
      assert line >= origin + step;
      CellOf(origin + step, step, line, p);
    }
  }

  /** Both the top-left and the bottom-right pixel of the cell at `(x, y)` are on a monitor. */
  predicate CellCovered(screen: Screen, step: int, x: int, y: int) {
    var right, bottom := screen.bounds.x + screen.bounds.width, screen.bounds.y + screen.bounds.height;
    && IsCoveredByMonitor(screen, x, y)
    && IsCoveredByMonitor(screen, x + Min(step, right - x) - 1, y + Min(step, bottom - y) - 1)
  }

  // ---------------------------------------------------------------------------
  // One row
  // ---------------------------------------------------------------------------

  predicate InRow(row: seq<Rect>, x: int) {
    exists i :: 0 <= i < |row| && row[i].x <= x < row[i].x + row[i].width
  }

  /** Non-empty runs between `left` and `right`, in order, with covered pixels between any two. */
  predicate IsRow(row: seq<Rect>, left: int, right: int, y: int, height: int) {
    && (forall i :: 0 <= i < |row| ==>
          row[i].y == y && row[i].height == height && row[i].width >= 1
          && left <= row[i].x && row[i].x + row[i].width <= right)
    && (forall i, j :: 0 <= i < j < |row| ==> row[i].x + row[i].width < row[j].x)
  }

  /** The runs of `row` are exactly the uncovered cells left of `right`. */
  ghost predicate RowExact(screen: Screen, step: int, row: seq<Rect>, y: int, right: int)
    requires step >= 1
  {
    forall x :: screen.bounds.x <= x < right ==>
      (InRow(row, x) <==> !CellCovered(screen, step, CellStart(screen.bounds.x, step, x), y))
  }

  lemma InRowAppend(row: seq<Rect>, run: Rect, x: int)
    ensures InRow(row + [run], x) <==> InRow(row, x) || run.x <= x < run.x + run.width
  {
    if InRow(row, x) {
      var i :| 0 <= i < |row| && row[i].x <= x < row[i].x + row[i].width;
      assert (row + [run])[i] == row[i];
    }
    assert (row + [run])[|row|] == run;
  }

  /** The row as it would be if the open run ended before `x`. */
  function ClosedAt(row: seq<Rect>, runStart: Option<int>, y: int, height: int, x: int): seq<Rect> {
    if runStart.Some? then row + [Rect(runStart.value, y, x - runStart.value, height)] else row
  }

  lemma InClosedAt(row: seq<Rect>, runStart: Option<int>, y: int, height: int, x: int, p: int)
    ensures InRow(ClosedAt(row, runStart, y, height, x), p)
            <==> InRow(row, p) || (runStart.Some? && runStart.value <= p < x)
  {
    if runStart.Some? {
      InRowAppend(row, Rect(runStart.value, y, x - runStart.value, height), p);
    }
  }

  /** Scanning has reached `x`; runs of `row` are closed and a run may be open from `runStart`. */
  ghost predicate Scanned(screen: Screen, step: int, row: seq<Rect>, runStart: Option<int>, y: int, height: int, x: int)
    requires step >= 1
  {
    && (runStart.Some? ==> screen.bounds.x <= runStart.value < x)
    && IsRow(row, screen.bounds.x, (if runStart.Some? then runStart.value else x) - 1, y, height)
    && RowExact(screen, step, ClosedAt(row, runStart, y, height, x), y, x)
  }

  /** An uncovered cell opens a run or prolongs the one that is open. */
  lemma ScanUncovered(screen: Screen, step: int, row: seq<Rect>, runStart: Option<int>, y: int, height: int,
                      x: int, next: int)
    requires step >= 1 && screen.bounds.x <= x < next && Scanned(screen, step, row, runStart, y, height, x)
    requires forall p :: x <= p < next ==> !CellCovered(screen, step, CellStart(screen.bounds.x, step, p), y)
    ensures Scanned(screen, step, row, if runStart.None? then Some(x) else runStart, y, height, next)
  {
    var open := if runStart.None? then Some(x) else runStart;
    forall p ensures InRow(ClosedAt(row, open, y, height, next), p)
                     <==> InRow(ClosedAt(row, runStart, y, height, x), p) || x <= p < next {
      InClosedAt(row, open, y, height, next, p);
      InClosedAt(row, runStart, y, height, x, p);
    }
  }

  /** A covered cell closes the run that is open, if any. */
  lemma ScanCovered(screen: Screen, step: int, row: seq<Rect>, runStart: Option<int>, y: int, height: int,
                    x: int, next: int)
    requires step >= 1 && screen.bounds.x <= x < next && Scanned(screen, step, row, runStart, y, height, x)
    requires forall p :: x <= p < next ==> CellCovered(screen, step, CellStart(screen.bounds.x, step, p), y)
    ensures Scanned(screen, step, ClosedAt(row, runStart, y, height, x), None, y, height, next)
  {
  }

  lemma CloseRow(screen: Screen, step: int, row: seq<Rect>, runStart: Option<int>, y: int, height: int, right: int)
    requires step >= 1 && Scanned(screen, step, row, runStart, y, height, right)
    ensures var closed := ClosedAt(row, runStart, y, height, right);
            IsRow(closed, screen.bounds.x, right, y, height) && RowExact(screen, step, closed, y, right)
  {
  }

  /** The pixels of the cell that starts at grid line `x` are covered or not together. */
  lemma CellIsUniform(screen: Screen, step: int, x: int, y: int, height: int)
    requires step >= 1 && OnGrid(screen.bounds.x, step, x)
    requires height == Min(step, screen.bounds.y + screen.bounds.height - y)
    ensures OnGrid(screen.bounds.x, step, x + step)
    ensures var width := Min(step, screen.bounds.x + screen.bounds.width - x);
            var covered := IsCoveredByMonitor(screen, x, y)
                           && IsCoveredByMonitor(screen, x + width - 1, y + height - 1);
            forall p :: x <= p < x + step ==>
              CellCovered(screen, step, CellStart(screen.bounds.x, step, p), y) == covered
  {
    forall p | x <= p < x + step ensures CellStart(screen.bounds.x, step, p) == x {
      CellOf(screen.bounds.x, step, x, p);
    }
    CellOf(screen.bounds.x, step, x, x);
  }

  method ScanRow(screen: Screen, step: int, y: int) returns (row: seq<Rect>)
    requires step >= 1
    ensures var right := screen.bounds.x + screen.bounds.width;
            var height := Min(step, screen.bounds.y + screen.bounds.height - y);
            IsRow(row, screen.bounds.x, right, y, height) && RowExact(screen, step, row, y, right)
  {
    var left, right := screen.bounds.x, screen.bounds.x + screen.bounds.width;
    var height := Min(step, screen.bounds.y + screen.bounds.height - y);
    row := [];
    var runStart: Option<int> := None;
    var x := left;
    while x < right
      invariant left <= x && OnGrid(left, step, x)
      invariant Scanned(screen, step, row, runStart, y, height, Min(x, right))
      decreases right - x
    {
      var columnWidth := Min(step, right - x);
      var covered := IsCoveredByMonitor(screen, x, y)
                     && IsCoveredByMonitor(screen, x + columnWidth - 1, y + height - 1);
      CellIsUniform(screen, step, x, y, height);
      if covered {
        ScanCovered(screen, step, row, runStart, y, height, x, Min(x + step, right));
      } else {
        ScanUncovered(screen, step, row, runStart, y, height, x, Min(x + step, right));
      }
      if !covered && runStart.None? {
        runStart := Some(x);
      }
      if covered && runStart.Some? {
        row := row + [Rect(runStart.value, y, x - runStart.value, height)];
        runStart := None;
      }
      x := x + step;
    }
    CloseRow(screen, step, row, runStart, y, height, right);
    if runStart.Some? {
      row := row + [Rect(runStart.value, y, right - runStart.value, height)];
    }
  }

  // ---------------------------------------------------------------------------
  // The whole screen
  // ---------------------------------------------------------------------------

  predicate InGaps(gaps: seq<Rect>, x: int, y: int) {
    exists i :: 0 <= i < |gaps| && Contains(gaps[i], x, y)
  }

  /** The pixel lies in a cell with an uncovered corner. */
  predicate InGapCell(screen: Screen, step: int, x: int, y: int)
    requires step >= 1 && x >= screen.bounds.x && y >= screen.bounds.y
  {
    !CellCovered(screen, step, CellStart(screen.bounds.x, step, x), CellStart(screen.bounds.y, step, y))
  }

  /** Rectangles above `bottom` that are disjoint, inside the bounds, maximal and exact. */
  ghost predicate GapsAbove(screen: Screen, step: int, gaps: seq<Rect>, bottom: int)
    requires step >= 1
  {
    var bounds := screen.bounds;
    && (forall i :: 0 <= i < |gaps| ==>
          && gaps[i].width >= 1 && gaps[i].height >= 1
          && bounds.x <= gaps[i].x && gaps[i].x + gaps[i].width <= bounds.x + bounds.width
          && bounds.y <= gaps[i].y && gaps[i].y + gaps[i].height <= bottom)
    && (forall i, j :: 0 <= i < j < |gaps| ==>
          && !Overlap(gaps[i], gaps[j])
          && (gaps[i].y == gaps[j].y ==> gaps[i].x + gaps[i].width < gaps[j].x))
    && forall x, y :: bounds.x <= x < bounds.x + bounds.width && bounds.y <= y < bottom ==>
         (InGaps(gaps, x, y) <==> InGapCell(screen, step, x, y))
  }

  ghost predicate IsGapCover(screen: Screen, step: int, gaps: seq<Rect>)
    requires step >= 1
  {
    GapsAbove(screen, step, gaps, screen.bounds.y + screen.bounds.height)
  }

  /** What is painted: without monitors nothing at all. */
  ghost predicate IsAnswer(screen: Screen, step: int, gaps: seq<Rect>)
    requires step >= 1
  {
    if screen.monitors == [] then gaps == [] else IsGapCover(screen, step, gaps)
  }

  lemma AppendRow(screen: Screen, step: int, gaps: seq<Rect>, row: seq<Rect>, y: int, next: int)
    requires step >= 1 && screen.bounds.y <= y < next <= y + step && OnGrid(screen.bounds.y, step, y)
    requires GapsAbove(screen, step, gaps, y)
    requires IsRow(row, screen.bounds.x, screen.bounds.x + screen.bounds.width, y, next - y)
    requires RowExact(screen, step, row, y, screen.bounds.x + screen.bounds.width)
    ensures GapsAbove(screen, step, gaps + row, next)
  {
    var all, bounds := gaps + row, screen.bounds;
    forall px, py | bounds.x <= px < bounds.x + bounds.width && bounds.y <= py < next
      ensures InGaps(all, px, py) <==> InGapCell(screen, step, px, py)
    {
      InGapsConcat(gaps, row, px, py);
      if py < y {
        assert !InGaps(row, px, py);
      } else {
        CellOf(bounds.y, step, y, py);
        assert !InGaps(gaps, px, py);
        assert InGaps(row, px, py) <==> InRow(row, px);
      }
    }
  }

  lemma InGapsConcat(a: seq<Rect>, b: seq<Rect>, x: int, y: int)
    ensures InGaps(a + b, x, y) <==> InGaps(a, x, y) || InGaps(b, x, y)
  {
    if InGaps(a, x, y) {
      var i :| 0 <= i < |a| && Contains(a[i], x, y);
      assert Contains((a + b)[i], x, y);
    }
    if InGaps(b, x, y) {
      var i :| 0 <= i < |b| && Contains(b[i], x, y);
      assert Contains((a + b)[|a| + i], x, y);
    }
  }

  method MonitorGapRects(screen: Screen, step: int) returns (gaps: seq<Rect>)
    requires step >= 1
    ensures IsAnswer(screen, step, gaps)
  {
    gaps := [];
    if screen.monitors == [] {
      return;
    }
    var top, bottom := screen.bounds.y, screen.bounds.y + screen.bounds.height;
    var y := top;
    while y < bottom
      invariant top <= y && OnGrid(top, step, y)
      invariant GapsAbove(screen, step, gaps, Min(y, bottom))
      decreases bottom - y
    {
      var row := ScanRow(screen, step, y);
      AppendRow(screen, step, gaps, row, y, Min(y + step, bottom));
      CellOf(top, step, y, y);
      gaps := gaps + row;
      y := y + step;
    }
  }

  // ---------------------------------------------------------------------------
  // When the sampling is exact
  // ---------------------------------------------------------------------------

  lemma {:induction false} CellStartIsOnGrid(origin: int, step: int, p: int)
    requires step >= 1 && p >= origin
    ensures OnGrid(origin, step, CellStart(origin, step, p))
    decreases p - origin
  {
    if p >= origin + step {
      CellStartIsOnGrid(origin + step, step, p);
    }
  }

  /** The last pixel of the cell that starts at `start`. */
  function FarPixel(origin: int, size: int, step: int, start: int): int {
    start + Min(step, origin + size - start) - 1
  }

  /** Two pixels of the bounds lie in one cell of the grid. */
  predicate SameCell(b: Rect, step: int, x: int, y: int, x': int, y': int)
    requires step >= 1 && Contains(b, x, y) && Contains(b, x', y')
  {
    CellStart(b.x, step, x) == CellStart(b.x, step, x') && CellStart(b.y, step, y) == CellStart(b.y, step, y')
  }

  /** No monitor edge runs visibly through a cell: its pixels are shown or not together. */
  ghost predicate CellsUniform(screen: Screen, step: int)
    requires step >= 1
  {
    forall x, y, x', y' :: Contains(screen.bounds, x, y) && Contains(screen.bounds, x', y')
                           && SameCell(screen.bounds, step, x, y, x', y') ==>
      (IsCoveredByMonitor(screen, x, y) <==> IsCoveredByMonitor(screen, x', y'))
  }

  /** The painted pixels of the bounds are exactly those no monitor shows. */
  ghost predicate GapsExact(screen: Screen, gaps: seq<Rect>) {
    forall x, y :: Contains(screen.bounds, x, y) ==> (InGaps(gaps, x, y) <==> !IsCoveredByMonitor(screen, x, y))
  }

  /** The first and the last pixel of a cell are inside the bounds and in that cell. */
  lemma CellCorners(origin: int, size: int, step: int, p: int)
    requires step >= 1 && origin <= p < origin + size
    ensures var start := CellStart(origin, step, p);
            var far := FarPixel(origin, size, step, start);
            && origin <= start <= p <= far < origin + size
            && CellStart(origin, step, start) == start == CellStart(origin, step, far)
  {
    var start := CellStart(origin, step, p);
    CellStartIsOnGrid(origin, step, p);
    CellOf(origin, step, start, start);
    CellOf(origin, step, start, FarPixel(origin, size, step, start));
  }

  /** A cell is left unpainted exactly when both its corners are shown. */
  lemma PaintedByCorners(screen: Screen, step: int, gaps: seq<Rect>, x: int, y: int)
    requires step >= 1 && IsGapCover(screen, step, gaps) && Contains(screen.bounds, x, y)
    ensures var b := screen.bounds;
            var left, top := CellStart(b.x, step, x), CellStart(b.y, step, y);
            var right, bottom := FarPixel(b.x, b.width, step, left), FarPixel(b.y, b.height, step, top);
            && Contains(b, left, top) && SameCell(b, step, x, y, left, top)
            && Contains(b, right, bottom) && SameCell(b, step, x, y, right, bottom)
            && (InGaps(gaps, x, y)
                <==> !(IsCoveredByMonitor(screen, left, top) && IsCoveredByMonitor(screen, right, bottom)))
  {
    CellCorners(screen.bounds.x, screen.bounds.width, step, x);
    CellCorners(screen.bounds.y, screen.bounds.height, step, y);
  }

  /** Two pixels of one cell are painted or not together. */
  lemma CellsArePaintedWhole(screen: Screen, step: int, gaps: seq<Rect>, x: int, y: int, x': int, y': int)
    requires step >= 1 && IsGapCover(screen, step, gaps)
    requires Contains(screen.bounds, x, y) && Contains(screen.bounds, x', y')
    requires SameCell(screen.bounds, step, x, y, x', y')
    ensures InGaps(gaps, x, y) <==> InGaps(gaps, x', y')
  {
  }

  lemma CoverIsExactIff(screen: Screen, step: int, gaps: seq<Rect>)
    requires step >= 1 && IsGapCover(screen, step, gaps)
    ensures GapsExact(screen, gaps) <==> CellsUniform(screen, step)
  {
    if GapsExact(screen, gaps) {
      forall x, y, x', y' | Contains(screen.bounds, x, y) && Contains(screen.bounds, x', y')
                            && SameCell(screen.bounds, step, x, y, x', y')
        ensures IsCoveredByMonitor(screen, x, y) <==> IsCoveredByMonitor(screen, x', y')
      {
        CellsArePaintedWhole(screen, step, gaps, x, y, x', y');
      }
    }
    if CellsUniform(screen, step) {
      forall x, y | Contains(screen.bounds, x, y)
        ensures InGaps(gaps, x, y) <==> !IsCoveredByMonitor(screen, x, y)
      {
        PaintedByCorners(screen, step, gaps, x, y);
      }
    }
  }

  /**
   The gaps are exact if and only if there are monitors and every cell is shown whole or
   not at all.  Otherwise pixels that a monitor shows are painted over, or pixels that none
   shows are left out.
   */
  lemma GapsAreExactIff(screen: Screen, step: int, gaps: seq<Rect>)
    requires step >= 1 && IsAnswer(screen, step, gaps)
    ensures GapsExact(screen, gaps)
            <==> CellsUniform(screen, step)
                 && (screen.monitors != [] || screen.bounds.width < 1 || screen.bounds.height < 1)
  {
    if screen.monitors == [] {
      assert Contains(screen.bounds, screen.bounds.x, screen.bounds.y)
             <==> screen.bounds.width >= 1 && screen.bounds.height >= 1;
    } else {
      CoverIsExactIff(screen, step, gaps);
    }
  }

  /** An edge falls on a grid line, or outside the span the grid covers. */
  predicate EdgeAligned(origin: int, size: int, step: int, edge: int)
    requires step >= 1
  {
    edge <= origin || edge >= origin + size || OnGrid(origin, step, edge)
  }

  predicate Aligned(screen: Screen, step: int)
    requires step >= 1
  {
    var b := screen.bounds;
    forall i :: 0 <= i < |screen.monitors| ==>
      var m := screen.monitors[i];
      && EdgeAligned(b.x, b.width, step, m.x) && EdgeAligned(b.x, b.width, step, m.x + m.width)
      && EdgeAligned(b.y, b.height, step, m.y) && EdgeAligned(b.y, b.height, step, m.y + m.height)
  }

  /** Two positions of one cell are on the same side of an edge on the grid. */
  lemma AlignedEdge(origin: int, size: int, step: int, edge: int, p: int, q: int)
    requires step >= 1 && origin <= p < origin + size && origin <= q < origin + size
    requires EdgeAligned(origin, size, step, edge) && CellStart(origin, step, p) == CellStart(origin, step, q)
    ensures edge <= p <==> edge <= q
  {
    if origin < edge < origin + size {
      CellOf(origin, step, edge, p);
      CellOf(origin, step, edge, q);
    }
  }

  /** A monitor whose edges are on the grid shows all pixels of a cell or none. */
  lemma AlignedMonitor(b: Rect, m: Rect, step: int, x: int, y: int, x': int, y': int)
    requires step >= 1 && Contains(b, x, y) && Contains(b, x', y') && SameCell(b, step, x, y, x', y')
    requires EdgeAligned(b.x, b.width, step, m.x) && EdgeAligned(b.x, b.width, step, m.x + m.width)
    requires EdgeAligned(b.y, b.height, step, m.y) && EdgeAligned(b.y, b.height, step, m.y + m.height)
    ensures Contains(m, x, y) == Contains(m, x', y')
  {
    AlignedEdge(b.x, b.width, step, m.x, x, x');
    AlignedEdge(b.x, b.width, step, m.x + m.width, x, x');
    AlignedEdge(b.y, b.height, step, m.y, y, y');
    AlignedEdge(b.y, b.height, step, m.y + m.height, y, y');
  }

  /** Edges on the grid are enough, though an edge hidden behind another monitor may be anywhere. */
  lemma AlignedIsUniform(screen: Screen, step: int)
    requires step >= 1 && Aligned(screen, step)
    ensures CellsUniform(screen, step)
  {
    var b := screen.bounds;
    forall x, y, x', y' | Contains(b, x, y) && Contains(b, x', y') && SameCell(b, step, x, y, x', y')
      ensures IsCoveredByMonitor(screen, x, y) <==> IsCoveredByMonitor(screen, x', y')
    {
      forall i | 0 <= i < |screen.monitors|
        ensures Contains(screen.monitors[i], x, y) == Contains(screen.monitors[i], x', y')
      {
        AlignedMonitor(b, screen.monitors[i], step, x, y, x', y');
      }
    }
  }

  lemma {:induction false} StepOneCell(origin: int, p: int)
    requires p >= origin
    ensures CellStart(origin, 1, p) == p
    decreases p - origin
  {
    if p > origin {
      StepOneCell(origin + 1, p);
    }
  }

  /** Sampling every pixel is exact on every screen. */
  lemma EveryPixelIsExact(screen: Screen, gaps: seq<Rect>)
    requires IsGapCover(screen, 1, gaps)
    ensures GapsExact(screen, gaps)
  {
    forall x, y, x', y' | Contains(screen.bounds, x, y) && Contains(screen.bounds, x', y')
                          && SameCell(screen.bounds, 1, x, y, x', y')
      ensures x == x' && y == y'
    {
      StepOneCell(screen.bounds.x, x);
      StepOneCell(screen.bounds.x, x');
      StepOneCell(screen.bounds.y, y);
      StepOneCell(screen.bounds.y, y');
    }
    CoverIsExactIff(screen, 1, gaps);
  }

  /** Off the grid the default step of 8 paints over pixels that a monitor does show. */
  lemma DefaultStepHidesShownPixels(gaps: seq<Rect>)
    requires IsGapCover(Screen(Rect(0, 0, 16, 8), [Rect(0, 0, 12, 8)]), 8, gaps)
    ensures InGaps(gaps, 9, 0) && IsCoveredByMonitor(Screen(Rect(0, 0, 16, 8), [Rect(0, 0, 12, 8)]), 9, 0)
  {
    var screen := Screen(Rect(0, 0, 16, 8), [Rect(0, 0, 12, 8)]);
    assert Contains(screen.monitors[0], 9, 0);
    assert CellStart(0, 8, 9) == CellStart(8, 8, 9) == 8 && CellStart(0, 8, 0) == 0;
    assert !CellCovered(screen, 8, 8, 0);
  }

  /** And it leaves out pixels that no monitor shows, between monitors in opposite corners of a cell. */
  lemma DefaultStepMissesDarkPixels(gaps: seq<Rect>)
    requires IsGapCover(Screen(Rect(0, 0, 8, 8), [Rect(0, 0, 4, 4), Rect(4, 4, 4, 4)]), 8, gaps)
    ensures !InGaps(gaps, 5, 0)
    ensures !IsCoveredByMonitor(Screen(Rect(0, 0, 8, 8), [Rect(0, 0, 4, 4), Rect(4, 4, 4, 4)]), 5, 0)
  {
    var screen := Screen(Rect(0, 0, 8, 8), [Rect(0, 0, 4, 4), Rect(4, 4, 4, 4)]);
    assert Contains(screen.monitors[0], 0, 0) && Contains(screen.monitors[1], 7, 7);
    assert CellStart(0, 8, 5) == 0 && CellStart(0, 8, 0) == 0;
    assert CellCovered(screen, 8, 0, 0);
  }

  // ---------------------------------------------------------------------------
  // Selections
  // ---------------------------------------------------------------------------

  predicate Inside(rect: Rect, bounds: Rect) {
    && rect.width >= 1 && rect.height >= 1
    && bounds.x <= rect.x && rect.x + rect.width <= bounds.x + bounds.width
    && bounds.y <= rect.y && rect.y + rect.height <= bounds.y + bounds.height
  }

  ghost predicate AllInGaps(gaps: seq<Rect>, rect: Rect) {
    forall x, y :: Contains(rect, x, y) ==> InGaps(gaps, x, y)
  }

  ghost predicate ShowsPixel(screen: Screen, rect: Rect) {
    exists x, y :: Contains(rect, x, y) && IsCoveredByMonitor(screen, x, y)
  }

  /** If the selection meets a monitor at all, it meets one that has an area. */
  predicate MeetsRealMonitor(screen: Screen, rect: Rect) {
    IntersectsAnyMonitor(screen, rect) ==>
      exists i :: 0 <= i < |screen.monitors| && Overlap(rect, screen.monitors[i])
                  && screen.monitors[i].width >= 1 && screen.monitors[i].height >= 1
  }

  /** A selection is accepted exactly for a pixel on a monitor, unless it meets empty monitors only. */
  lemma AcceptedForPixelIff(screen: Screen, rect: Rect)
    requires rect.width >= 1 && rect.height >= 1
    ensures ShowsPixel(screen, rect) ==> IntersectsAnyMonitor(screen, rect)
    ensures (IntersectsAnyMonitor(screen, rect) <==> ShowsPixel(screen, rect)) <==> MeetsRealMonitor(screen, rect)
  {
    if ShowsPixel(screen, rect) {
      var x, y :| Contains(rect, x, y) && IsCoveredByMonitor(screen, x, y);
      var i :| 0 <= i < |screen.monitors| && Contains(screen.monitors[i], x, y);
      assert Overlap(rect, screen.monitors[i]);
    }
    if i :| 0 <= i < |screen.monitors| && Overlap(rect, screen.monitors[i])
            && screen.monitors[i].width >= 1 && screen.monitors[i].height >= 1 {
      var m := screen.monitors[i];
      var x, y := Max(rect.x, m.x), Max(rect.y, m.y);
      assert Contains(rect, x, y) && Contains(m, x, y);
      assert IsCoveredByMonitor(screen, x, y);
    }
  }

  /**
   Where the painted gaps are exact, the selections rejected are those painted over, if
   and only if there are monitors and the selection does not meet empty ones only.
   Without monitors everything is rejected and nothing painted.
   */
  lemma RejectedIffInGaps(screen: Screen, step: int, gaps: seq<Rect>, rect: Rect)
    requires step >= 1 && IsAnswer(screen, step, gaps) && CellsUniform(screen, step) && Inside(rect, screen.bounds)
    ensures (!IntersectsAnyMonitor(screen, rect) <==> AllInGaps(gaps, rect))
            <==> screen.monitors != [] && MeetsRealMonitor(screen, rect)
    ensures screen.monitors == [] ==> !IntersectsAnyMonitor(screen, rect) && !AllInGaps(gaps, rect)
  {
    AcceptedForPixelIff(screen, rect);
    if screen.monitors == [] {
      assert Contains(rect, rect.x, rect.y) && !InGaps(gaps, rect.x, rect.y);
    } else {
      CoverIsExactIff(screen, step, gaps);
      assert AllInGaps(gaps, rect) <==> !ShowsPixel(screen, rect) by {
        forall x, y | Contains(rect, x, y) ensures InGaps(gaps, x, y) <==> !IsCoveredByMonitor(screen, x, y) {
          assert Contains(screen.bounds, x, y);
        }
      }
    }
  }

  /** For instance, a monitor of no width meets selections although it shows no pixel. */
  lemma EmptyMonitorAcceptsGaps()
    ensures var screen := Screen(Rect(0, 0, 4, 4), [Rect(2, 0, 0, 4)]);
            IntersectsAnyMonitor(screen, Rect(1, 0, 2, 2)) && !ShowsPixel(screen, Rect(1, 0, 2, 2))
  {
    var screen := Screen(Rect(0, 0, 4, 4), [Rect(2, 0, 0, 4)]);
    assert Overlap(Rect(1, 0, 2, 2), screen.monitors[0]);
    AcceptedForPixelIff(screen, Rect(1, 0, 2, 2));
  }
}
