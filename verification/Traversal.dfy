/** Sweeping a two-dimensional array row by row or column by column: the same cells, but very
    different numbers of cache-line crossings. */
module Traversal {

  datatype Cell = Cell(row: nat, col: nat)

  /** The cell at position p of a row-wise sweep with `cols` columns. */
  function RowAt(p: nat, cols: nat): Cell
    requires cols > 0
  {
    Cell(p / cols, p % cols)
  }

  /** The cell at position p of a column-wise sweep with `rows` rows. */
  function ColAt(p: nat, rows: nat): Cell
    requires rows > 0
  {
    Cell(p % rows, p / rows)
  }

  function RowOrder(rows: nat, cols: nat): seq<Cell>
    requires rows > 0 && cols > 0
  {
    seq(rows * cols, p requires p >= 0 => RowAt(p, cols))
  }

  function ColOrder(rows: nat, cols: nat): seq<Cell>
    requires rows > 0 && cols > 0
  {
    seq(cols * rows, p requires p >= 0 => ColAt(p, rows))
  }

  // ---------- Index arithmetic ----------

  lemma Position(major: nat, minor: nat, width: nat)
    requires minor < width
    ensures (major * width + minor) / width == major
    ensures (major * width + minor) % width == minor
  {
    Quotient(major * width + minor, width, major, minor);
  }

  lemma Quotient(p: nat, width: nat, q: nat, r: nat)
    requires r < width && p == q * width + r
    ensures p / width == q && p % width == r
  {
    if p / width < q {
      Scale(p / width + 1, q, width);
    } else if p / width > q {
      Scale(q + 1, p / width, width);
    }
  }

  lemma Scale(a: nat, b: nat, k: nat)
    requires a <= b
    ensures a * k <= b * k
  {
  }

  /** Position (major, minor) lies inside the sweep, and every position is of that form. */
  lemma Inside(major: nat, minor: nat, height: nat, width: nat)
    requires major < height && minor < width
    ensures major * width + minor < height * width
  {
    Scale(major + 1, height, width);
  }

  lemma Split(p: nat, height: nat, width: nat)
    requires p < height * width
    ensures width > 0 && p / width < height && p % width < width && (p / width) * width + p % width == p
  {
    if p / width >= height { Scale(height, p / width, width); }
  }

  // ---------- The two loop nests ----------

  /** The filling loop: cell (i, j) gets i + j. */
  method Fill(a: array2<int>)
    modifies a
    ensures forall i, j :: 0 <= i < a.Length0 && 0 <= j < a.Length1 ==> a[i, j] == i + j
  {
    var i := 0;
    while i < a.Length0
      invariant i <= a.Length0
      invariant forall x, y :: 0 <= x < i && 0 <= y < a.Length1 ==> a[x, y] == x + y
    {
      var j := 0;
      while j < a.Length1
        invariant j <= a.Length1
        invariant forall x, y :: 0 <= x < i && 0 <= y < a.Length1 ==> a[x, y] == x + y
        invariant forall y :: 0 <= y < j ==> a[i, y] == i + y
      {
        a[i, j] := i + j;
        j := j + 1;
      }
      i := i + 1;
    }
  }

  predicate Loaded(a: array2<int>, visits: seq<Cell>, values: seq<int>)
    reads a
  {
    && |values| == |visits|
    && forall p :: 0 <= p < |visits| ==>
         visits[p].row < a.Length0 && visits[p].col < a.Length1 && values[p] == a[visits[p].row, visits[p].col]
  }

  /** One measured sweep of bm_2d_array: the cells it loads, in order, and the values loaded. */
  method ReadRows(a: array2<int>) returns (visits: seq<Cell>, values: seq<int>)
    requires a.Length0 > 0 && a.Length1 > 0
    ensures visits == RowOrder(a.Length0, a.Length1) && Loaded(a, visits, values)
  {
    visits, values := [], [];
    var i := 0;
    while i < a.Length0
      invariant i <= a.Length0 && |visits| == i * a.Length1
      invariant forall p :: 0 <= p < |visits| ==> visits[p] == RowAt(p, a.Length1)
      invariant Loaded(a, visits, values)
    {
      var j := 0;
      while j < a.Length1
        invariant j <= a.Length1 && |visits| == i * a.Length1 + j
        invariant forall p :: 0 <= p < |visits| ==> visits[p] == RowAt(p, a.Length1)
        invariant Loaded(a, visits, values)
      {
        Position(i, j, a.Length1);
        var b := a[i, j];
        visits, values := visits + [Cell(i, j)], values + [b];
        j := j + 1;
      }
      i := i + 1;
    }
  }

  /** One measured sweep of bm_2d_array_non_cont. */
  method ReadColumns(a: array2<int>) returns (visits: seq<Cell>, values: seq<int>)
    requires a.Length0 > 0 && a.Length1 > 0
    ensures visits == ColOrder(a.Length0, a.Length1) && Loaded(a, visits, values)
  {
    visits, values := [], [];
    var j := 0;
    while j < a.Length1
      invariant j <= a.Length1 && |visits| == j * a.Length0
      invariant forall p :: 0 <= p < |visits| ==> visits[p] == ColAt(p, a.Length0)
      invariant Loaded(a, visits, values)
    {
      var i := 0;
      while i < a.Length0
        invariant i <= a.Length0 && |visits| == j * a.Length0 + i
        invariant forall p :: 0 <= p < |visits| ==> visits[p] == ColAt(p, a.Length0)
        invariant Loaded(a, visits, values)
      {
        Position(j, i, a.Length0);
        var b := a[i, j];
        visits, values := visits + [Cell(i, j)], values + [b];
        i := i + 1;
      }
      j := j + 1;
    }
  }

  // ---------- The same cells ----------

  /** Both sweeps visit every cell: cell (i, j) at position i * cols + j of the one and at
      position j * rows + i of the other. */
  lemma Transposed(rows: nat, cols: nat, i: nat, j: nat)
    requires i < rows && j < cols
    ensures i * cols + j < |RowOrder(rows, cols)| && RowOrder(rows, cols)[i * cols + j] == Cell(i, j)
    ensures j * rows + i < |ColOrder(rows, cols)| && ColOrder(rows, cols)[j * rows + i] == Cell(i, j)
  {
    Inside(i, j, rows, cols);
    Inside(j, i, cols, rows);
    Position(i, j, cols);
    Position(j, i, rows);
  }

  predicate InBounds(c: Cell, rows: nat, cols: nat) {
    c.row < rows && c.col < cols
  }

  lemma VisitsInBounds(rows: nat, cols: nat, c: Cell)
    requires rows > 0 && cols > 0
    ensures c in RowOrder(rows, cols) <==> InBounds(c, rows, cols)
    ensures c in ColOrder(rows, cols) <==> InBounds(c, rows, cols)
  {
    if InBounds(c, rows, cols) {
      Transposed(rows, cols, c.row, c.col);
    }
    forall p | 0 <= p < rows * cols
      ensures InBounds(RowAt(p, cols), rows, cols)
    {
      Split(p, rows, cols);
    }
    forall p | 0 <= p < cols * rows
      ensures InBounds(ColAt(p, rows), rows, cols)
    {
      Split(p, cols, rows);
    }
  }

  predicate Distinct<T(==)>(s: seq<T>) {
    forall p, q :: 0 <= p < q < |s| ==> s[p] != s[q]
  }

  lemma VisitsDistinct(rows: nat, cols: nat)
    requires rows > 0 && cols > 0
    ensures Distinct(RowOrder(rows, cols)) && Distinct(ColOrder(rows, cols))
  {
    forall p: nat, q: nat | RowAt(p, cols) == RowAt(q, cols)
      ensures p == q
    {
      Rebuild(p, cols);
      Rebuild(q, cols);
    }
    forall p: nat, q: nat | ColAt(p, rows) == ColAt(q, rows)
      ensures p == q
    {
      Rebuild(p, rows);
      Rebuild(q, rows);
    }
  }

  lemma Rebuild(p: nat, width: nat)
    requires width > 0
    ensures (p / width) * width + p % width == p
  {
  }

  lemma {:induction false} CountOnce<T>(s: seq<T>, x: T)
    requires Distinct(s)
    ensures multiset(s)[x] == if x in s then 1 else 0
  {
    if s != [] {
      var front := s[..|s| - 1];
      CountOnce(front, x);
      assert s == front + [s[|s| - 1]];
    }
  }

  /** The column-wise sweep visits a permutation of the cells of the row-wise sweep. */
  lemma SameCells(rows: nat, cols: nat)
    requires rows > 0 && cols > 0
    ensures multiset(RowOrder(rows, cols)) == multiset(ColOrder(rows, cols))
  {
    VisitsDistinct(rows, cols);
    forall c: Cell
      ensures multiset(RowOrder(rows, cols))[c] == multiset(ColOrder(rows, cols))[c]
    {
      CountOnce(RowOrder(rows, cols), c);
      CountOnce(ColOrder(rows, cols), c);
      VisitsInBounds(rows, cols, c);
    }
  }

  // ---------- Cache lines ----------

  /** The line that holds a cell, with `width` elements to a line and an array that starts on a
      line boundary. */
  function LineOf(c: Cell, cols: nat, width: nat): nat
    requires width > 0
  {
    (c.row * cols + c.col) / width
  }

  function Lines(visits: seq<Cell>, cols: nat, width: nat): seq<nat>
    requires width > 0
  {
    seq(|visits|, p requires 0 <= p < |visits| => LineOf(visits[p], cols, width))
  }

  /** How often a sequence of accesses moves to another line than the one before. */
  function Entries(lines: seq<nat>): nat {
    if lines == [] then 0
    else
      var last := |lines| - 1;
      Entries(lines[..last]) + if last == 0 || lines[last - 1] != lines[last] then 1 else 0
  }

  lemma {:induction false} RowEntries(lines: seq<nat>, width: nat)
    requires width > 0 && forall p :: 0 <= p < |lines| ==> lines[p] == p / width
    ensures Entries(lines) == (|lines| + width - 1) / width
  {
    if lines == [] {
      Quotient(width - 1, width, 0, width - 1);
    } else {
      var last := |lines| - 1;
      RowEntries(lines[..last], width);
      RoundUp(last, width);
    }
  }

  /** Rounding up grows by one exactly at the multiples of the width. */
  lemma RoundUp(p: nat, width: nat)
    requires width > 0
    ensures (p + width) / width == (p + width - 1) / width + if p == 0 || (p - 1) / width != p / width then 1 else 0
  {
    Rebuild(p, width);
    var q, r := p / width, p % width;
    Quotient(p + width, width, q + 1, r);
    if r == 0 {
      Quotient(p + width - 1, width, q, width - 1);
      if p > 0 {
        assert q > 0 && p - 1 == (q - 1) * width + (width - 1);
        Quotient(p - 1, width, q - 1, width - 1);
      }
    } else {
      Quotient(p + width - 1, width, q + 1, r - 1);
      Quotient(p - 1, width, q, r - 1);
    }
  }

  lemma {:induction false} AlwaysMoving(lines: seq<nat>)
    requires forall p :: 0 < p < |lines| ==> lines[p - 1] != lines[p]
    ensures Entries(lines) == |lines|
  {
    if lines != [] { AlwaysMoving(lines[..|lines| - 1]); }
  }

  /** With whole lines per row, a cell's line follows from its row and its column's line. */
  lemma LineInRow(c: Cell, perRow: nat, width: nat)
    requires width > 0
    ensures LineOf(c, width * perRow, width) == c.row * perRow + c.col / width
  {
    var q, r := c.col / width, c.col % width;
    assert c.row * (width * perRow) == (c.row * perRow) * width;
    assert c.row * (width * perRow) + c.col == (c.row * perRow + q) * width + r by {
      Distribute(c.row * perRow, q, width);
    }
    Quotient(c.row * (width * perRow) + c.col, width, c.row * perRow + q, r);
  }

  lemma Distribute(a: nat, b: nat, k: nat)
    ensures (a + b) * k == a * k + b * k
  {
  }

  /** In the column-wise sweep over two or more rows, no two consecutive cells share a line. */
  lemma NeighboursApart(rows: nat, perRow: nat, width: nat, p: nat)
    requires rows >= 2 && width > 0 && perRow > 0 && 0 < p < (width * perRow) * rows
    ensures LineOf(ColAt(p - 1, rows), width * perRow, width) != LineOf(ColAt(p, rows), width * perRow, width)
  {
    Split(p, width * perRow, rows);
    var col, row := p / rows, p % rows;
    if row > 0 {
      Quotient(p - 1, rows, col, row - 1);
      NextRow(row - 1, col, perRow, width);
    } else {
      assert col > 0 && p - 1 == (col - 1) * rows + (rows - 1);
      Quotient(p - 1, rows, col - 1, rows - 1);
      NextColumn(rows - 1, col, perRow, width);
    }
  }

  lemma NextRow(row: nat, col: nat, perRow: nat, width: nat)
    requires width > 0 && perRow > 0
    ensures LineOf(Cell(row, col), width * perRow, width) != LineOf(Cell(row + 1, col), width * perRow, width)
  {
    LineInRow(Cell(row, col), perRow, width);
    LineInRow(Cell(row + 1, col), perRow, width);
    Distribute(row, 1, perRow);
  }

  /** From the bottom of a column to the top of the next. */
  lemma NextColumn(bottom: nat, col: nat, perRow: nat, width: nat)
    requires width > 0 && 1 <= bottom && 1 <= col < width * perRow
    ensures LineOf(Cell(bottom, col - 1), width * perRow, width) != LineOf(Cell(0, col), width * perRow, width)
  {
    LineInRow(Cell(bottom, col - 1), perRow, width);
    LineInRow(Cell(0, col), perRow, width);
    Scale(1, bottom, perRow);
    ColumnLine(col, perRow, width);
  }

  lemma ColumnLine(col: nat, perRow: nat, width: nat)
    requires width > 0 && col < width * perRow
    ensures col / width < perRow
  {
    Split(col, perRow, width);
  }

  /** Every line of a row-wise sweep is the position divided by the width. */
  lemma RowLine(p: nat, cols: nat, width: nat)
    requires cols > 0 && width > 0
    ensures LineOf(RowAt(p, cols), cols, width) == p / width
  {
    Rebuild(p, cols);
  }

  /** The row-wise sweep enters each line once; the column-wise sweep enters a line at every
      single access, unless there is only one row, when the two sweeps are the same. */
  lemma LineEntries(rows: nat, perRow: nat, width: nat)
    requires rows > 0 && perRow > 0 && width > 0
    ensures var cols := width * perRow;
            && cols > 0
            && Entries(Lines(RowOrder(rows, cols), cols, width)) == rows * perRow
            && Entries(Lines(ColOrder(rows, cols), cols, width)) == if rows == 1 then rows * perRow else rows * cols
  {
    Scale(1, perRow, width);
    RowWiseEntries(rows, perRow, width);
    if rows == 1 {
      OneRow(width * perRow);
    } else {
      ColumnWiseEntries(rows, perRow, width);
    }
  }

  lemma RowWiseEntries(rows: nat, perRow: nat, width: nat)
    requires rows > 0 && width > 0 && width * perRow > 0
    ensures Entries(Lines(RowOrder(rows, width * perRow), width * perRow, width)) == rows * perRow
  {
    var cols := width * perRow;
    forall p | 0 <= p < rows * cols
      ensures LineOf(RowAt(p, cols), cols, width) == p / width
    {
      RowLine(p, cols, width);
    }
    RowEntries(Lines(RowOrder(rows, cols), cols, width), width);
    Regroup(rows, perRow, width);
    Quotient(rows * cols + width - 1, width, rows * perRow, width - 1);
  }

  lemma Regroup(a: nat, b: nat, k: nat)
    ensures a * (k * b) == (a * b) * k
  {
  }

  lemma ColumnWiseEntries(rows: nat, perRow: nat, width: nat)
    requires rows >= 2 && perRow > 0 && width > 0 && width * perRow > 0
    ensures Entries(Lines(ColOrder(rows, width * perRow), width * perRow, width)) == rows * (width * perRow)
  {
    var cols := width * perRow;
    forall p | 0 < p < cols * rows
      ensures LineOf(ColAt(p - 1, rows), cols, width) != LineOf(ColAt(p, rows), cols, width)
    {
      NeighboursApart(rows, perRow, width, p);
    }
    AlwaysMoving(Lines(ColOrder(rows, cols), cols, width));
  }

  lemma OneRow(cols: nat)
    requires cols > 0
    ensures RowOrder(1, cols) == ColOrder(1, cols)
  {
    forall p | 0 <= p < cols
      ensures RowAt(p, cols) == ColAt(p, 1)
    {
      Quotient(p, cols, 0, p);
    }
  }

  function Touched(lines: seq<nat>): set<nat> {
    set l | l in lines
  }

  function Below(n: nat): (s: set<nat>)
    ensures |s| == n && forall l: nat :: l in s <==> l < n
  {
    if n == 0 then {}
    else
      var rest := Below(n - 1);
      assert n - 1 !in rest;
      rest + {n - 1}
  }

  /** Both sweeps touch the same rows * perRow lines. */
  lemma SameLines(rows: nat, perRow: nat, width: nat)
    requires rows > 0 && perRow > 0 && width > 0
    ensures var cols := width * perRow;
            && cols > 0
            && Touched(Lines(RowOrder(rows, cols), cols, width)) == Below(rows * perRow)
            && Touched(Lines(ColOrder(rows, cols), cols, width)) == Below(rows * perRow)
  {
    Scale(1, perRow, width);
    var cols := width * perRow;
    forall c: Cell
      ensures c in RowOrder(rows, cols) <==> InBounds(c, rows, cols)
      ensures c in ColOrder(rows, cols) <==> InBounds(c, rows, cols)
    {
      VisitsInBounds(rows, cols, c);
    }
    TouchedIs(RowOrder(rows, cols), rows, perRow, width);
    TouchedIs(ColOrder(rows, cols), rows, perRow, width);
  }

  lemma LineInRange(c: Cell, rows: nat, perRow: nat, width: nat)
    requires width > 0 && InBounds(c, rows, width * perRow)
    ensures LineOf(c, width * perRow, width) < rows * perRow
  {
    LineInRow(c, perRow, width);
    ColumnLine(c.col, perRow, width);
    Inside(c.row, c.col / width, rows, perRow);
  }

  /** The first cell of line l. */
  lemma LineStart(l: nat, rows: nat, perRow: nat, width: nat) returns (c: Cell)
    requires width > 0 && l < rows * perRow
    ensures InBounds(c, rows, width * perRow) && LineOf(c, width * perRow, width) == l
  {
    Split(l, rows, perRow);
    var k := l % perRow;
    c := Cell(l / perRow, k * width);
    Scale(k + 1, perRow, width);
    Distribute(k, 1, width);
    LineInRow(c, perRow, width);
    Quotient(k * width, width, k, 0);
  }

  lemma TouchedIs(visits: seq<Cell>, rows: nat, perRow: nat, width: nat)
    requires width > 0 && forall c: Cell :: c in visits <==> InBounds(c, rows, width * perRow)
    ensures Touched(Lines(visits, width * perRow, width)) == Below(rows * perRow)
  {
    var cols := width * perRow;
    var lines := Lines(visits, cols, width);
    forall p | 0 <= p < |lines|
      ensures lines[p] < rows * perRow
    {
      assert visits[p] in visits;
      LineInRange(visits[p], rows, perRow, width);
    }
    forall l: nat | l < rows * perRow
      ensures l in lines
    {
      var c := LineStart(l, rows, perRow, width);
      var p :| 0 <= p < |visits| && visits[p] == c;
      assert lines[p] == l;
    }
  }

  /** The array of the program: 1024 rows of 16 eight-byte elements, 64-byte lines. */
  lemma ProgramArray()
    ensures Entries(Lines(RowOrder(1024, 16), 16, 8)) == 2048
    ensures Entries(Lines(ColOrder(1024, 16), 16, 8)) == 16384
    ensures |Touched(Lines(RowOrder(1024, 16), 16, 8))| == |Touched(Lines(ColOrder(1024, 16), 16, 8))| == 2048
  {
    LineEntries(1024, 2, 8);
    SameLines(1024, 2, 8);
  }
}
