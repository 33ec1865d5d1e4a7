/**
  The access tracker that wraps a bucket and records the byte ranges read
  from each object, and the per-object heat map it dumps: a 30 x 30 grid
  of cells over the object's bytes, each counting the reads that touched
  it.

  The wrapped bucket is not modelled: the sizes it would report are
  inputs.  Turning a read's byte offsets into cell numbers goes through
  floating point in the tracker; here that conversion is an input
  function from a read and the object size to a pair of raw cell numbers.
  Drawing, fonts, colours and PNG encoding are not modelled; what the
  model keeps of an image is its grid, its maximum count and its file
  name.
 */
module Visualized {
  import opened Wrappers

  const GridCellCount: int := 900
  const GridDimension: int := 30
  const GridMarginTop: int := 80
  const GridMarginLeft: int := 80
  const GridWidth: int := 1400
  const GridHeight: int := 1400
  const CellWidth: int := GridWidth / GridDimension
  const CellHeight: int := GridHeight / GridDimension

  /** The object size assumed when none is known. */
  const DefaultObjectSize: int := 1024 * 1024

  // ---------------------------------------------------------------------
  // File names
  // ---------------------------------------------------------------------

  /** The characters kept in an image file name. */
  predicate SafeChar(c: char)
  {
    ('a' <= c <= 'z') || ('A' <= c <= 'Z') || ('0' <= c <= '9') || c == '-' || c == '_' || c == '.'
  }

  /** The object name with every character outside [A-Za-z0-9._-] replaced by '_'. */
  function SafeName(name: string): (s: string)
    ensures |s| == |name|
  {
    seq(|name|, i requires 0 <= i < |name| => if SafeChar(name[i]) then name[i] else '_')
  }

  /** Safe names keep exactly the allowed characters and put '_' everywhere else. */
  lemma SafeNameKeepsAllowed(name: string)
    ensures forall i :: 0 <= i < |name| ==> SafeChar(SafeName(name)[i])
    ensures forall i :: 0 <= i < |name| ==> (SafeName(name)[i] == name[i] <==> SafeChar(name[i]))
    ensures forall i :: 0 <= i < |name| && !SafeChar(name[i]) ==> SafeName(name)[i] == '_'
  {
  }

  /** A name is left unchanged exactly when all its characters are allowed; sanitising twice is sanitising once. */
  lemma SafeNameFixedPoints(name: string)
    ensures SafeName(name) == name <==> forall i :: 0 <= i < |name| ==> SafeChar(name[i])
    ensures SafeName(SafeName(name)) == SafeName(name)
  {
    if SafeName(name) == name {
      forall i | 0 <= i < |name| ensures SafeChar(name[i]) {
        assert SafeName(name)[i] == name[i];
      }
    }
  }

  /** Different object names share an image file: a name with a disallowed character collides with the name that has '_' in its place. */
  lemma SafeNameCollides(name: string, i: int)
    requires 0 <= i < |name| && !SafeChar(name[i])
    ensures name[i := '_'] != name
    ensures SafeName(name[i := '_']) == SafeName(name)
  {
    SafeNameKeepsAllowed(name);
    SafeNameKeepsAllowed(name[i := '_']);
  }

  // ---------------------------------------------------------------------
  // Cells
  // ---------------------------------------------------------------------

  /** One grid cell: its rectangle [x1, x2) x [y1, y2) and its read count. */
  datatype Cell = Cell(x1: int, y1: int, x2: int, y2: int, readCount: nat)

  /** The rectangle of cell `idx` = y * 30 + x, with a read count. */
  function GridCell(idx: int, readCount: nat): Cell
  {
    var x := idx % GridDimension;
    var y := idx / GridDimension;
    Cell(GridMarginLeft + x * CellWidth, GridMarginTop + y * CellHeight,
         GridMarginLeft + (x + 1) * CellWidth, GridMarginTop + (y + 1) * CellHeight, readCount)
  }

  predicate Contains(c: Cell, px: int, py: int)
  {
    c.x1 <= px < c.x2 && c.y1 <= py < c.y2
  }

  lemma DivBounds(a: int, k: int)
    requires 0 <= a
    ensures 0 <= k ==> (k * CellWidth <= a < (k + 1) * CellWidth <==> k == a / CellWidth)
  {
  }

  /**
    The cells tile the drawn square, GridDimension cells of CellWidth by
    CellHeight on each side from the margins: every point in it lies in
    exactly one cell, and no point outside it lies in any cell.
   */
  lemma GridTiles(px: int, py: int)
    ensures forall idx :: 0 <= idx < GridCellCount ==>
      (Contains(GridCell(idx, 0), px, py) <==>
        GridMarginLeft <= px < GridMarginLeft + GridDimension * CellWidth &&
        GridMarginTop <= py < GridMarginTop + GridDimension * CellHeight &&
        idx == ((py - GridMarginTop) / CellHeight) * GridDimension + (px - GridMarginLeft) / CellWidth)
  {
    assert CellWidth == CellHeight == 46;
    forall idx | 0 <= idx < GridCellCount
      ensures Contains(GridCell(idx, 0), px, py) <==>
        GridMarginLeft <= px < GridMarginLeft + GridDimension * CellWidth &&
        GridMarginTop <= py < GridMarginTop + GridDimension * CellHeight &&
        idx == ((py - GridMarginTop) / CellHeight) * GridDimension + (px - GridMarginLeft) / CellWidth
    {
      var x := idx % GridDimension;
      var y := idx / GridDimension;
      assert idx == y * GridDimension + x;
      if GridMarginLeft <= px && GridMarginTop <= py {
        DivBounds(px - GridMarginLeft, x);
        DivBounds(py - GridMarginTop, y);
        if GridMarginLeft <= px < GridMarginLeft + GridDimension * CellWidth &&
           GridMarginTop <= py < GridMarginTop + GridDimension * CellHeight &&
           idx == ((py - GridMarginTop) / CellHeight) * GridDimension + (px - GridMarginLeft) / CellWidth {
          assert (px - GridMarginLeft) / CellWidth < GridDimension;
          assert x == (px - GridMarginLeft) / CellWidth && y == (py - GridMarginTop) / CellHeight;
        }
      }
    }
  }

  /** The read counts of a grid. */
  function ReadsOf(cells: seq<Cell>): (r: seq<nat>)
    ensures |r| == |cells| && forall i :: 0 <= i < |cells| ==> r[i] == cells[i].readCount
  {
    seq(|cells|, i requires 0 <= i < |cells| => cells[i].readCount)
  }

  /** The largest count, 0 for none. */
  function MaxOf(counts: seq<nat>): nat
  {
    if counts == [] then 0
    else
      var m := MaxOf(counts[..|counts| - 1]);
      if counts[|counts| - 1] > m then counts[|counts| - 1] else m
  }

  /** MaxOf is the maximum: an upper bound that is 0 or attained. */
  lemma {:induction false} MaxOfIsMaximum(counts: seq<nat>)
    ensures forall i :: 0 <= i < |counts| ==> counts[i] <= MaxOf(counts)
    ensures MaxOf(counts) == 0 || exists i :: 0 <= i < |counts| && counts[i] == MaxOf(counts)
  {
    if counts != [] {
      var init := counts[..|counts| - 1];
      MaxOfIsMaximum(init);
      assert forall i :: 0 <= i < |init| ==> counts[i] == init[i];
    }
  }

  /** Raising one count raises the maximum to at least that count and no further. */
  lemma {:induction false} MaxOfRaise(counts: seq<nat>, c: int, v: nat)
    requires 0 <= c < |counts| && v >= counts[c]
    ensures MaxOf(counts[c := v]) == if v > MaxOf(counts) then v else MaxOf(counts)
  {
    var n := |counts| - 1;
    if c == n {
      assert counts[c := v][..n] == counts[..n];
    } else {
      assert counts[c := v][..n] == counts[..n][c := v];
      MaxOfRaise(counts[..n], c, v);
      MaxOfIsMaximum(counts[..n]);
    }
  }

  /** The clamping of a read's raw cell numbers, in the tracker's order. */
  function ClampCells(startCell: int, endCell: int): (r: (int, int))
    ensures 0 <= r.0 <= GridCellCount - 1 && r.1 <= GridCellCount - 1
    ensures startCell < 0 ==> r.0 == 0
    ensures 0 <= startCell <= GridCellCount - 1 ==> r.0 == startCell
    ensures startCell > GridCellCount - 1 ==> r.0 == GridCellCount - 1
    ensures endCell <= GridCellCount - 1 ==> r.1 == endCell
    ensures endCell > GridCellCount - 1 ==> r.1 == GridCellCount - 1
  {
    var s := if startCell < 0 then 0 else startCell;
    var e := if endCell >= GridCellCount then GridCellCount - 1 else endCell;
    var s' := if s > GridCellCount - 1 then GridCellCount - 1 else s;
    (s', e)
  }

  /** The counts after one read covering cells first..last (none when last < first). */
  function Touch(counts: seq<nat>, first: int, last: int): (r: seq<nat>)
    ensures |r| == |counts|
    ensures forall i :: 0 <= i < |counts| ==> r[i] == counts[i] + if first <= i <= last then 1 else 0
  {
    seq(|counts|, i requires 0 <= i < |counts| => counts[i] + if first <= i <= last then 1 else 0)
  }

  /** A read in the tracker's log. */
  datatype Read = Read(offset: int, length: int)

  /**
    The grid counts after a sequence of reads, applied in order.
    `cellsOf(read, objectSize)` stands for the tracker's conversion of a
    read's offset and length into percentages of the object size and then
    into raw start and end cell numbers, which is floating-point
    arithmetic and is left as a parameter.
   */
  function CellCounts(log: seq<Read>, objectSize: int, cellsOf: (Read, int) -> (int, int)): (r: seq<nat>)
    ensures |r| == GridCellCount
  {
    if log == [] then seq(GridCellCount, _ => 0)
    else
      var range := ClampCells(cellsOf(log[|log| - 1], objectSize).0, cellsOf(log[|log| - 1], objectSize).1);
      Touch(CellCounts(log[..|log| - 1], objectSize, cellsOf), range.0, range.1)
  }

  /** Every cell counts exactly the reads whose clamped range covers it. */
  function Covering(log: seq<Read>, objectSize: int, cellsOf: (Read, int) -> (int, int), cell: int): nat
  {
    if log == [] then 0
    else
      var range := ClampCells(cellsOf(log[|log| - 1], objectSize).0, cellsOf(log[|log| - 1], objectSize).1);
      Covering(log[..|log| - 1], objectSize, cellsOf, cell) + if range.0 <= cell <= range.1 then 1 else 0
  }

  lemma {:induction false} CellCountsCount(log: seq<Read>, objectSize: int, cellsOf: (Read, int) -> (int, int))
    ensures forall c :: 0 <= c < GridCellCount ==> CellCounts(log, objectSize, cellsOf)[c] == Covering(log, objectSize, cellsOf, c)
  {
    if log != [] {
      CellCountsCount(log[..|log| - 1], objectSize, cellsOf);
    }
  }

  // ---------------------------------------------------------------------
  // One object's image
  // ---------------------------------------------------------------------

  /** The grid of one object's heat map. */
  class CallsImage {
    const grid: array<Cell>
    var maxReads: nat
    const fileName: string
    const objectSize: int

    predicate Valid()
      reads this, grid
    {
      grid.Length == GridCellCount && maxReads == MaxOf(ReadsOf(grid[..]))
    }

    /** A fresh image: every cell has no reads. */
    constructor (fileName: string, objectSize: int)
      ensures Valid() && fresh(grid)
      ensures ReadsOf(grid[..]) == seq(GridCellCount, _ => 0)
      ensures this.fileName == fileName && this.objectSize == objectSize
    {
      this.fileName := fileName;
      this.objectSize := objectSize;
      grid := new Cell[GridCellCount](_ => Cell(0, 0, 0, 0, 0));
      maxReads := 0;
      new;
      ghost var zeros: seq<nat> := seq(GridCellCount, _ => 0);
      assert ReadsOf(grid[..]) == zeros;
      MaxOfZeros(zeros);
    }

    /**
      Counts one read covering the raw cells startCell..endCell: the range
      is clamped, each covered cell gains one read, and the maximum count
      is kept up to date.
     */
    method AddRead(startCell: int, endCell: int)
      requires Valid()
      modifies this, grid
      ensures Valid()
      ensures ReadsOf(grid[..]) ==
        Touch(old(ReadsOf(grid[..])), ClampCells(startCell, endCell).0, ClampCells(startCell, endCell).1)
      ensures forall i :: 0 <= i < GridCellCount ==> grid[i] == old(grid[i]).(readCount := grid[i].readCount)
    {
      var (first, last) := ClampCells(startCell, endCell);
      var cell := first;
      while cell <= last
        invariant Valid()
        invariant first <= cell && (cell <= last + 1 || cell == first)
        invariant ReadsOf(grid[..]) == Touch(old(ReadsOf(grid[..])), first, cell - 1)
        invariant forall i :: 0 <= i < GridCellCount ==> grid[i] == old(grid[i]).(readCount := grid[i].readCount)
      {
        ghost var before := ReadsOf(grid[..]);
        CountRead(cell);
        assert ReadsOf(grid[..]) == Touch(old(ReadsOf(grid[..])), first, cell) by {
          assert ReadsOf(grid[..]) == before[cell := before[cell] + 1];
        }
        cell := cell + 1;
      }
    }

    /** One covered cell gains a read; the maximum count follows it. */
    method CountRead(cell: int)
      requires Valid() && 0 <= cell < GridCellCount
      modifies this, grid
      ensures Valid()
      ensures ReadsOf(grid[..]) == old(ReadsOf(grid[..]))[cell := old(grid[cell].readCount) + 1]
      ensures forall i :: 0 <= i < GridCellCount ==> grid[i] == old(grid[i]).(readCount := grid[i].readCount)
    {
      ghost var before := ReadsOf(grid[..]);
      grid[cell] := grid[cell].(readCount := grid[cell].readCount + 1);
      assert ReadsOf(grid[..]) == before[cell := before[cell] + 1];
      MaxOfRaise(before, cell, before[cell] + 1);
      if grid[cell].readCount > maxReads {
        maxReads := grid[cell].readCount;
      }
    }

    /** Lays the cells out row by row: cell y * 30 + x gets the rectangle of column x and row y; counts are kept. */
    method RenderGrid()
      requires Valid()
      modifies grid
      ensures Valid()
      ensures forall i :: 0 <= i < GridCellCount ==> grid[i] == GridCell(i, old(grid[i].readCount))
    {
      var y := 0;
      while y < GridDimension
        invariant 0 <= y <= GridDimension
        invariant forall i :: 0 <= i < GridCellCount ==> grid[i].readCount == old(grid[i].readCount)
        invariant forall i :: 0 <= i < y * GridDimension ==> grid[i] == GridCell(i, old(grid[i].readCount))
      {
        var x := 0;
        while x < GridDimension
          invariant 0 <= x <= GridDimension
          invariant forall i :: 0 <= i < GridCellCount ==> grid[i].readCount == old(grid[i].readCount)
          invariant forall i :: 0 <= i < y * GridDimension + x ==> grid[i] == GridCell(i, old(grid[i].readCount))
        {
          var idx := y * GridDimension + x;
          assert idx % GridDimension == x && idx / GridDimension == y;
          grid[idx] := Cell(GridMarginLeft + x * CellWidth, GridMarginTop + y * CellHeight,
                            GridMarginLeft + (x + 1) * CellWidth, GridMarginTop + (y + 1) * CellHeight, grid[idx].readCount);
          x := x + 1;
        }
        y := y + 1;
      }
      assert ReadsOf(grid[..]) == old(ReadsOf(grid[..]));
    }
  }

  lemma MaxOfZeros(zeros: seq<nat>)
    requires forall i :: 0 <= i < |zeros| ==> zeros[i] == 0
    ensures MaxOf(zeros) == 0
  {
    MaxOfIsMaximum(zeros);
  }

  // ---------------------------------------------------------------------
  // The tracker
  // ---------------------------------------------------------------------

  /** A heat map as it is written out: the object, its image file, the size assumed and the grid. */
  datatype Heatmap = Heatmap(objectName: string, fileName: string, objectSize: int, cells: seq<Cell>, maxReads: nat)

  /** The size a dump assumes for an object: its recorded size, else the largest size seen, else 1 MiB. */
  function ObjectSize(sizes: map<string, int>, maxSize: int, name: string): (s: int)
    ensures name in sizes && sizes[name] != 0 ==> s == sizes[name]
    ensures (name !in sizes || sizes[name] == 0) && maxSize != 0 ==> s == maxSize
    ensures (name !in sizes || sizes[name] == 0) && maxSize == 0 ==> s == DefaultObjectSize
  {
    var recorded := if name in sizes then sizes[name] else 0;
    if recorded != 0 then recorded
    else if maxSize != 0 then maxSize
    else DefaultObjectSize
  }

  /** The heat map a dump draws for one object from its reads. */
  function HeatmapOf(name: string, log: seq<Read>, sizes: map<string, int>, maxSize: int, cellsOf: (Read, int) -> (int, int)): (h: Heatmap)
    ensures |h.cells| == GridCellCount
  {
    var size := ObjectSize(sizes, maxSize, name);
    var counts := CellCounts(log, size, cellsOf);
    Heatmap(name, SafeName(name) + ".png", size,
            seq(GridCellCount, i requires 0 <= i < GridCellCount => GridCell(i, counts[i])), MaxOf(counts))
  }

  /** The maximum of a heat map is its largest cell count, and every cell's count is the number of reads covering it. */
  lemma HeatmapCounts(name: string, log: seq<Read>, sizes: map<string, int>, maxSize: int, cellsOf: (Read, int) -> (int, int))
    ensures var h := HeatmapOf(name, log, sizes, maxSize, cellsOf);
      (forall i :: 0 <= i < GridCellCount ==> h.cells[i].readCount <= h.maxReads) &&
      (h.maxReads == 0 || exists i :: 0 <= i < GridCellCount && h.cells[i].readCount == h.maxReads) &&
      (forall i :: 0 <= i < GridCellCount ==>
        h.cells[i].readCount == Covering(log, ObjectSize(sizes, maxSize, name), cellsOf, i))
  {
    var counts := CellCounts(log, ObjectSize(sizes, maxSize, name), cellsOf);
    MaxOfIsMaximum(counts);
    CellCountsCount(log, ObjectSize(sizes, maxSize, name), cellsOf);
    var h := HeatmapOf(name, log, sizes, maxSize, cellsOf);
    if h.maxReads != 0 {
      var i :| 0 <= i < |counts| && counts[i] == MaxOf(counts);
      assert h.cells[i].readCount == h.maxReads;
    }
  }

  datatype DumpError = MkdirFailed | WriteFailed(objectName: string)

  class VisualizedBucket {
    var readLog: map<string, seq<Read>>
    var sizes: map<string, int>
    var maxSize: int

    /** Every recorded size is positive and at most maxSize. */
    predicate Valid()
      reads this
    {
      maxSize >= 0 && forall n :: n in sizes ==> 0 < sizes[n] <= maxSize
    }

    constructor ()
      ensures Valid() && readLog == map[] && sizes == map[] && maxSize == 0
    {
      readLog, sizes, maxSize := map[], map[], 0;
    }

    /**
      Records a read of `length` bytes from `off` and, when the object's
      size is not yet known, learns it from the wrapped bucket's
      attributes (`attributes`, consulted only then).  Returns whether the
      attributes were asked for.
     */
    method GetRange(name: string, off: int, length: int, attributes: Result<int, string>) returns (askedAttributes: bool)
      requires Valid()
      modifies this
      ensures Valid()
      ensures readLog == old(readLog)[name := (if name in old(readLog) then old(readLog)[name] else []) + [Read(off, length)]]
      ensures askedAttributes == (name !in old(sizes))
      ensures var learnt := name !in old(sizes) && attributes.Ok? && attributes.value > 0;
        sizes == (if learnt then old(sizes)[name := attributes.value] else old(sizes)) &&
        maxSize == (if learnt && attributes.value > old(maxSize) then attributes.value else old(maxSize))
    {
      if name in readLog {
        readLog := readLog[name := readLog[name] + [Read(off, length)]];
      } else {
        assert [] + [Read(off, length)] == [Read(off, length)];
        readLog := readLog[name := [Read(off, length)]];
      }
      askedAttributes := name !in sizes;
      if askedAttributes {
        if attributes.Ok? && attributes.value > 0 {
          sizes := sizes[name := attributes.value];
          if attributes.value > maxSize {
            maxSize := attributes.value;
          }
        }
      }
    }

    /** Records the size an upload declares, when it declares a positive one. */
    method Upload(name: string, size: Result<int, string>)
      requires Valid()
      modifies this
      ensures Valid()
      ensures readLog == old(readLog)
      ensures var learnt := size.Ok? && size.value > 0;
        sizes == (if learnt then old(sizes)[name := size.value] else old(sizes)) &&
        maxSize == (if learnt && size.value > old(maxSize) then size.value else old(maxSize))
    {
      if size.Ok? && size.value > 0 {
        sizes := sizes[name := size.value];
        if size.value > maxSize {
          maxSize := size.value;
        }
      }
    }

    /** Forgets everything recorded about one object. */
    method Delete(name: string)
      requires Valid()
      modifies this
      ensures Valid()
      ensures readLog == old(readLog) - {name} && sizes == old(sizes) - {name} && maxSize == old(maxSize)
    {
      readLog := readLog - {name};
      sizes := sizes - {name};
    }

    /**
      Draws a heat map per object read since the last dump, in Go's
      unspecified map order, and writes it out; the first failure stops
      the dump.  Whatever happens, the reads and sizes are cleared and
      maxSize is kept.  `written` lists the heat maps written.
     */
    method Dump(mkdirFails: bool, cellsOf: (Read, int) -> (int, int), writeFails: string -> bool)
      returns (written: seq<Heatmap>, err: Option<DumpError>)
      requires Valid()
      modifies this
      ensures Valid()
      ensures readLog == map[] && sizes == map[] && maxSize == old(maxSize)
      ensures old(readLog) == map[] ==> written == [] && err == None
      ensures old(readLog) != map[] && mkdirFails ==> written == [] && err == Some(MkdirFailed)
      ensures err == Some(MkdirFailed) <==> old(readLog) != map[] && mkdirFails
      ensures err.None? <==>
        old(readLog) == map[] || (!mkdirFails && forall n :: n in old(readLog) ==> !writeFails(SafeName(n) + ".png"))
      ensures forall h :: h in written ==>
        h.objectName in old(readLog) && h == HeatmapOf(h.objectName, old(readLog)[h.objectName], old(sizes), old(maxSize), cellsOf) &&
        !writeFails(h.fileName)
      ensures forall i, j :: 0 <= i < j < |written| ==> written[i].objectName != written[j].objectName
      ensures err.None? ==> (set h | h in written :: h.objectName) == old(readLog).Keys
      ensures err.Some? && err != Some(MkdirFailed) ==>
        err.value.objectName in old(readLog) && writeFails(SafeName(err.value.objectName) + ".png") &&
        forall h :: h in written ==> h.objectName != err.value.objectName
    {
      written, err := [], None;
      if readLog == map[] {
        readLog, sizes := map[], map[];
        return;
      }
      if mkdirFails {
        readLog, sizes := map[], map[];
        return [], Some(MkdirFailed);
      }
      var unvisited := readLog.Keys;
      while unvisited != {}
        invariant readLog == old(readLog) && sizes == old(sizes) && maxSize == old(maxSize)
        invariant unvisited <= readLog.Keys
        invariant (set h | h in written :: h.objectName) == readLog.Keys - unvisited
        invariant forall h :: h in written ==>
          h.objectName in readLog && h == HeatmapOf(h.objectName, readLog[h.objectName], sizes, maxSize, cellsOf) &&
          !writeFails(h.fileName)
        invariant forall i, j :: 0 <= i < j < |written| ==> written[i].objectName != written[j].objectName
        invariant forall n :: n in readLog && n !in unvisited ==> !writeFails(SafeName(n) + ".png")
        decreases unvisited
      {
        var name :| name in unvisited;
        var h := DrawHeatmap(name, readLog[name], ObjectSize(sizes, maxSize, name), cellsOf);
        assert h == HeatmapOf(name, readLog[name], sizes, maxSize, cellsOf);
        if writeFails(h.fileName) {
          readLog, sizes := map[], map[];
          return written, Some(WriteFailed(name));
        }
        assert (set x | x in written + [h] :: x.objectName) == (set x | x in written :: x.objectName) + {name};
        written := written + [h];
        unvisited := unvisited - {name};
      }
      readLog, sizes := map[], map[];
    }
  }

  /** Builds one object's image: counts each read in order, then lays out the grid. */
  method DrawHeatmap(name: string, objectReads: seq<Read>, objectSize: int, cellsOf: (Read, int) -> (int, int))
    returns (h: Heatmap)
    ensures var counts := CellCounts(objectReads, objectSize, cellsOf);
      h == Heatmap(name, SafeName(name) + ".png", objectSize,
                   seq(GridCellCount, i requires 0 <= i < GridCellCount => GridCell(i, counts[i])), MaxOf(counts))
  {
    var img := new CallsImage(name, objectSize);
    var k := 0;
    while k < |objectReads|
      invariant 0 <= k <= |objectReads|
      invariant img.Valid()
      invariant ReadsOf(img.grid[..]) == CellCounts(objectReads[..k], objectSize, cellsOf)
      invariant fresh(img) && fresh(img.grid)
    {
      var range := cellsOf(objectReads[k], objectSize);
      img.AddRead(range.0, range.1);
      assert objectReads[..k + 1][..k] == objectReads[..k];
      k := k + 1;
    }
    assert objectReads[..k] == objectReads;
    ghost var counts := ReadsOf(img.grid[..]);
    img.RenderGrid();
    assert img.grid[..] == seq(GridCellCount, i requires 0 <= i < GridCellCount => GridCell(i, counts[i]));
    return Heatmap(name, SafeName(img.fileName) + ".png", objectSize, img.grid[..], img.maxReads);
  }

  /** The tracker's invariant makes maxSize an upper bound of every size it holds, and it never decreases. */
  lemma MaxSizeBoundsSizes(b: map<string, int>, maxSize: int, name: string)
    requires maxSize >= 0 && forall n :: n in b ==> 0 < b[n] <= maxSize
    requires name in b
    ensures 0 < ObjectSize(b, maxSize, name) <= maxSize
  {
  }
}
