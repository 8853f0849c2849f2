/** The axes of utils/grid.py: the flat grid string is cut into rows, the
    rows are transposed into columns, and a word is in the grid when it
    reads rightwards or downwards from some cell. */
module GridAxes {
  import opened Strings
  import opened Errors
  import opened Ranges

  /** Where row `r` starts in the flat grid: `n * r`, written as a sum so
      that the solver does not reason about products. */
  function RowStart(n: nat, r: nat): nat {
    if r == 0 then 0 else RowStart(n, r - 1) + n
  }

  lemma {:induction false} RowStartIsProduct(n: nat, r: nat)
    ensures RowStart(n, r) == n * r
  {
    if r > 0 {
      RowStartIsProduct(n, r - 1);
      assert n * r == n * (r - 1) + n;
    }
  }

  /** The number of cells of a grid with `n` rows of `n` cells. */
  function Area(n: nat): nat {
    RowStart(n, n)
  }

  lemma AreaIsSquare(n: nat)
    ensures Area(n) == n * n
  {
    RowStartIsProduct(n, n);
  }

  /** Rows after `r` start further on. */
  lemma {:induction false} RowStartGrows(n: nat, r: nat, s: nat)
    requires r <= s
    ensures RowStart(n, r) <= RowStart(n, s)
    decreases s - r
  {
    if r < s {
      RowStartGrows(n, r, s - 1);
    }
  }

  /** Every row of an `n * n` grid lies inside it. */
  lemma RowBounds(n: nat, r: nat)
    requires r < n
    ensures RowStart(n, r) + n == RowStart(n, r + 1) <= Area(n)
  {
    RowStartGrows(n, r + 1, n);
  }

  /** Row `r` of the flat grid: the slice `grid[n*r : n*(r+1)]`. */
  function Row(grid: string, n: nat, r: nat): (row: string)
    requires |grid| == Area(n) && r < n
    ensures |row| == n
  {
    RowBounds(n, r);
    grid[RowStart(n, r)..RowStart(n, r + 1)]
  }

  /** `_generate_rows`: the `n` rows of the grid, top to bottom. */
  function Rows(grid: string, n: nat): (rows: seq<string>)
    requires |grid| == Area(n)
    ensures |rows| == n
  {
    seq(n, r requires 0 <= r < n => Row(grid, n, r))
  }

  /** The cell in row `i` and column `j` of the flat, row-major grid. */
  function At(grid: string, n: nat, i: nat, j: nat): char
    requires |grid| == Area(n) && i < n && j < n
  {
    RowBounds(n, i);
    grid[RowStart(n, i) + j]
  }

  /** The characters of row `i` are the cells of row `i`. */
  lemma RowCells(grid: string, n: nat, i: nat, j: nat)
    requires |grid| == Area(n) && i < n && j < n
    ensures Row(grid, n, i)[j] == At(grid, n, i, j)
  {
    RowBounds(n, i);
    var lo, hi := RowStart(n, i), RowStart(n, i + 1);
    assert grid[lo..hi][j] == grid[lo + j];
  }

  /** Each row of the grid has `n` cells, in column order. */
  lemma RowsAt(grid: string, n: nat)
    requires |grid| == Area(n)
    ensures forall i :: 0 <= i < n ==> |Rows(grid, n)[i]| == n
    ensures forall i, j :: 0 <= i < n && 0 <= j < n ==> Rows(grid, n)[i][j] == At(grid, n, i, j)
  {
    forall i, j | 0 <= i < n && 0 <= j < n ensures Rows(grid, n)[i][j] == At(grid, n, i, j) {
      RowCells(grid, n, i, j);
    }
  }

  /** The rows one after another, as the grid file lists them. */
  function Concat(rows: seq<string>): string
  {
    if |rows| == 0 then [] else Concat(rows[..|rows| - 1]) + rows[|rows| - 1]
  }

  /** Appending the next slice of the grid extends the joined prefix. */
  lemma JoinStep(grid: string, rows: seq<string>, k: nat, lo: nat, hi: nat)
    requires k < |rows| && lo <= hi <= |grid|
    requires Concat(rows[..k]) == grid[..lo] && rows[k] == grid[lo..hi]
    ensures Concat(rows[..k + 1]) == grid[..hi]
  {
    assert rows[..k + 1][..k] == rows[..k];
    assert grid[..hi] == grid[..lo] + grid[lo..hi];
  }

  /** The first `k` rows, joined, are the grid up to the start of row `k`. */
  lemma {:induction false} RowsPrefix(grid: string, n: nat, k: nat)
    requires |grid| == Area(n) && k <= n
    ensures RowStart(n, k) <= |grid|
    ensures Concat(Rows(grid, n)[..k]) == grid[..RowStart(n, k)]
  {
    if k > 0 {
      RowsPrefix(grid, n, k - 1);
      RowBounds(n, k - 1);
      JoinStep(grid, Rows(grid, n), k - 1, RowStart(n, k - 1), RowStart(n, k));
    }
  }

  /** Cutting the grid into rows loses nothing: joining the rows gives the grid back. */
  lemma RowsJoin(grid: string, n: nat)
    requires |grid| == Area(n)
    ensures Concat(Rows(grid, n)) == grid
  {
    RowsPrefix(grid, n, n);
    assert Rows(grid, n)[..n] == Rows(grid, n);
    assert grid[..RowStart(n, n)] == grid;
  }

  /** The length `zip` stops at: that of the shortest row, none without rows. */
  function Width(rows: seq<string>): (w: nat)
    ensures forall i :: 0 <= i < |rows| ==> w <= |rows[i]|
    ensures |rows| > 0 ==> exists i :: 0 <= i < |rows| && w == |rows[i]|
    ensures |rows| == 0 ==> w == 0
  {
    if |rows| == 0 then 0
    else if |rows| == 1 then |rows[0]|
    else
      var rest := Width(rows[1..]);
      assert forall i :: 1 <= i < |rows| ==> rows[i] == rows[1..][i - 1];
      if |rows[0]| <= rest then |rows[0]| else rest
  }

  /** `_generate_columns`: `zip(*rows)`, each tuple joined back into a string. */
  function Columns(rows: seq<string>): (columns: seq<string>)
    ensures |columns| == Width(rows)
    ensures forall j :: 0 <= j < |columns| ==> |columns[j]| == |rows|
    ensures forall j, i :: 0 <= j < |columns| && 0 <= i < |rows| ==> columns[j][i] == rows[i][j]
  {
    seq(Width(rows), j requires 0 <= j < Width(rows) => seq(|rows|, i requires 0 <= i < |rows| => rows[i][j]))
  }

  /** A grid of `n * n` characters has `n` columns. */
  lemma ColumnCount(grid: string, n: nat)
    requires |grid| == Area(n)
    ensures |Columns(Rows(grid, n))| == n
  {
    var rows := Rows(grid, n);
    if n > 0 {
      var i :| 0 <= i < |rows| && Width(rows) == |rows[i]|;
    }
  }

  /** A grid of `n * n` characters has `n` rows and `n` columns of length
      `n`, and column `j` holds the `j`-th character of every row, in row order. */
  lemma GridShape(grid: string, n: nat)
    requires |grid| == Area(n)
    ensures |Rows(grid, n)| == n && |Columns(Rows(grid, n))| == n
    ensures forall i, j :: 0 <= i < n && 0 <= j < n ==>
      |Rows(grid, n)[i]| == n && |Columns(Rows(grid, n))[j]| == n &&
      Rows(grid, n)[i][j] == At(grid, n, i, j) && Columns(Rows(grid, n))[j][i] == At(grid, n, i, j)
  {
    RowsAt(grid, n);
    var rows := Rows(grid, n);
    if n > 0 {
      var i :| 0 <= i < |rows| && Width(rows) == |rows[i]|;
    }
  }

  /** Column `j` read straight from the cells, as the two-dimensional
      array view `grid[:, j]` of the trie builder reads it. */
  function Column(grid: string, n: nat, j: nat): (column: string)
    requires |grid| == Area(n) && j < n
    ensures |column| == n
  {
    seq(n, i requires 0 <= i < n => At(grid, n, i, j))
  }

  /** The transposed rows are the columns of the cells. */
  lemma ColumnsAreColumns(grid: string, n: nat, j: nat)
    requires |grid| == Area(n) && j < n
    ensures |Columns(Rows(grid, n))| == n
    ensures Columns(Rows(grid, n))[j] == Column(grid, n, j)
  {
    GridShape(grid, n);
  }

  /** `_generate_rows` and `_generate_columns` on an `n * n` grid: row `r`
      is `grid[n*r : n*(r+1)]`, and every column `j` of the `n` columns is
      the `j`-th character of every row in row order. */
  lemma RowsAndColumns(grid: string, n: nat, r: nat)
    requires |grid| == n * n && r < n
    ensures |grid| == Area(n)
    ensures |Rows(grid, n)| == n && n * (r + 1) <= |grid|
    ensures Rows(grid, n)[r] == grid[n * r..n * (r + 1)]
    ensures |Columns(Rows(grid, n))| == n
    ensures forall j :: 0 <= j < n ==> |Columns(Rows(grid, n))[j]| == n && Columns(Rows(grid, n))[j][r] == Rows(grid, n)[r][j]
  {
    AreaIsSquare(n);
    RowStartIsProduct(n, r);
    RowStartIsProduct(n, r + 1);
    RowBounds(n, r);
    GridShape(grid, n);
  }

  /** Transposing twice gives back a rectangle of non-empty rows. */
  lemma TransposeTwice(rows: seq<string>)
    requires |rows| > 0 && |rows[0]| > 0
    requires forall i :: 0 <= i < |rows| ==> |rows[i]| == |rows[0]|
    ensures Columns(Columns(rows)) == rows
  {
    var columns := Columns(rows);
    var i :| 0 <= i < |rows| && Width(rows) == |rows[i]|;
    var j :| 0 <= j < |columns| && Width(columns) == |columns[j]|;
    assert Width(columns) == |rows|;
    forall k | 0 <= k < |rows| ensures Columns(columns)[k] == rows[k] {
      assert |Columns(columns)[k]| == |columns| == |rows[k]|;
    }
  }

  /** The word stands left-to-right in some row or top-to-bottom in some
      column, of the axes as `linear_search` pairs them. */
  ghost predicate OnAxis(rows: seq<string>, columns: seq<string>, word: string) {
    exists k :: 0 <= k < |rows| && k < |columns| && (IsSubstring(word, rows[k]) || IsSubstring(word, columns[k]))
  }

  /** The word reads rightwards from cell `(i, j)`. */
  ghost predicate RightFrom(grid: string, n: nat, i: nat, j: nat, word: string)
    requires |grid| == Area(n) && i < n && j < n
  {
    j + |word| <= n && forall t :: 0 <= t < |word| ==> At(grid, n, i, j + t) == word[t]
  }

  /** The word reads downwards from cell `(i, j)`. */
  ghost predicate DownFrom(grid: string, n: nat, i: nat, j: nat, word: string)
    requires |grid| == Area(n) && i < n && j < n
  {
    i + |word| <= n && forall t :: 0 <= t < |word| ==> At(grid, n, i + t, j) == word[t]
  }

  /** The word search question asked of the cells themselves: does the word
      start at some cell and read to the right or downwards? */
  ghost predicate InGrid(grid: string, n: nat, word: string)
    requires |grid| == Area(n)
  {
    exists i, j :: 0 <= i < n && 0 <= j < n && (RightFrom(grid, n, i, j, word) || DownFrom(grid, n, i, j, word))
  }

  lemma RowOccurrence(grid: string, n: nat, i: nat, j: nat, word: string)
    requires |grid| == Area(n) && i < n && j < n
    ensures IsPrefix(word, Rows(grid, n)[i][j..]) <==> RightFrom(grid, n, i, j, word)
  {
    GridShape(grid, n);
    var row := Rows(grid, n)[i];
    if IsPrefix(word, row[j..]) {
      forall t | 0 <= t < |word| ensures At(grid, n, i, j + t) == word[t] {
        assert row[j..][..|word|][t] == row[j + t];
      }
    }
    if RightFrom(grid, n, i, j, word) {
      assert row[j..][..|word|] == word;
    }
  }

  lemma ColumnOccurrence(grid: string, n: nat, i: nat, j: nat, word: string)
    requires |grid| == Area(n) && i < n && j < n
    ensures IsPrefix(word, Columns(Rows(grid, n))[j][i..]) <==> DownFrom(grid, n, i, j, word)
  {
    GridShape(grid, n);
    var column := Columns(Rows(grid, n))[j];
    if IsPrefix(word, column[i..]) {
      forall t | 0 <= t < |word| ensures At(grid, n, i + t, j) == word[t] {
        assert column[i..][..|word|][t] == column[i + t];
      }
    }
    if DownFrom(grid, n, i, j, word) {
      assert column[i..][..|word|] == word;
    }
  }

  /** The rows and columns are correct: searching them answers the word
      search question about the cells. */
  lemma OnAxisIsInGrid(grid: string, n: nat, word: string)
    requires |grid| == Area(n)
    ensures OnAxis(Rows(grid, n), Columns(Rows(grid, n)), word) <==> InGrid(grid, n, word)
  {
    if OnAxis(Rows(grid, n), Columns(Rows(grid, n)), word) {
      OnAxisInGrid(grid, n, word);
    }
    if InGrid(grid, n, word) {
      InGridOnAxis(grid, n, word);
    }
  }

  lemma OnAxisInGrid(grid: string, n: nat, word: string)
    requires |grid| == Area(n) && OnAxis(Rows(grid, n), Columns(Rows(grid, n)), word)
    ensures InGrid(grid, n, word)
  {
    GridShape(grid, n);
    var rows, columns := Rows(grid, n), Columns(Rows(grid, n));
    var k :| 0 <= k < n && (IsSubstring(word, rows[k]) || IsSubstring(word, columns[k]));
    if IsSubstring(word, rows[k]) {
      var j :| 0 <= j <= n && IsPrefix(word, rows[k][j..]);
      if j < n {
        RowOccurrence(grid, n, k, j, word);
      } else {
        RowOccurrence(grid, n, k, 0, word);
      }
    } else {
      var i :| 0 <= i <= n && IsPrefix(word, columns[k][i..]);
      if i < n {
        ColumnOccurrence(grid, n, i, k, word);
      } else {
        assert false;
      }
    }
  }

  lemma InGridOnAxis(grid: string, n: nat, word: string)
    requires |grid| == Area(n) && InGrid(grid, n, word)
    ensures OnAxis(Rows(grid, n), Columns(Rows(grid, n)), word)
  {
    GridShape(grid, n);
    var rows, columns := Rows(grid, n), Columns(Rows(grid, n));
    var i, j :| 0 <= i < n && 0 <= j < n && (RightFrom(grid, n, i, j, word) || DownFrom(grid, n, i, j, word));
    if RightFrom(grid, n, i, j, word) {
      RowOccurrence(grid, n, i, j, word);
      assert IsSubstring(word, rows[i]);
    } else {
      ColumnOccurrence(grid, n, i, j, word);
      assert IsSubstring(word, columns[j]);
    }
  }
}
