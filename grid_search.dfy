/** The `Grid` object of utils/grid.py and its two searches: one pass over
    the paired rows and columns, and the windowed scan that hands one block
    of rows and columns to each worker and ORs their answers. */
module GridSearch {
  import opened Strings
  import opened Errors
  import opened Ranges
  import opened GridAxes

  /** Some axis among `axis[lo..hi]`, within the axis, holds the word. */
  ghost predicate HitIn(axis: seq<string>, lo: nat, hi: nat, word: string) {
    exists k :: lo <= k < hi && k < |axis| && IsSubstring(word, axis[k])
  }

  /** How scanning `axis[lo]`, `axis[lo + 1]`, ..., `axis[hi - 1]` ends: it
      stops at the first element holding the word, and fails on the first
      index past the end of the axis. A hit comes before any such index. */
  ghost function AxisScan(axis: seq<string>, lo: nat, hi: nat, word: string): Result<bool> {
    if HitIn(axis, lo, hi, word) then Ok(true)
    else if lo < hi && |axis| < hi then Err(IndexOutOfRange)
    else Ok(false)
  }

  /** How scanning the axes one after another ends: the first axis that
      finds the word or fails decides. */
  ghost function Scan(axes: seq<seq<string>>, lo: nat, hi: nat, word: string): Result<bool>
    decreases |axes|
  {
    if |axes| == 0 then Ok(false)
    else if AxisScan(axes[0], lo, hi, word) == Ok(false) then Scan(axes[1..], lo, hi, word)
    else AxisScan(axes[0], lo, hi, word)
  }

  /** The data `_GridWorker.share_data` publishes to the workers. */
  datatype Share = Share(axes: seq<seq<string>>, windowSize: nat)

  /** `_GridWorker.contains_word`: scan the axes at the `windowSize` indices
      from `searchIndex` on. Until data was shared there is nothing to scan. */
  method ContainsWord(shared: Option<Share>, word: string, searchIndex: nat) returns (r: Result<bool>)
    ensures shared.None? ==> r == Err(UninitializedWorker)
    ensures shared.Some? ==> r == Scan(shared.value.axes, searchIndex, searchIndex + shared.value.windowSize, word)
  {
    if shared.None? {
      return Err(UninitializedWorker);
    }
    var axes, hi := shared.value.axes, searchIndex + shared.value.windowSize;
    for a := 0 to |axes|
      invariant Scan(axes, searchIndex, hi, word) == Scan(axes[a..], searchIndex, hi, word)
    {
      var axis := axes[a];
      assert axes[a..][1..] == axes[a + 1..];
      for index := searchIndex to hi
        invariant searchIndex < index ==> index <= |axis|
        invariant forall m :: searchIndex <= m < index ==> m < |axis| && !IsSubstring(word, axis[m])
      {
        if index >= |axis| {
          assert !HitIn(axis, searchIndex, hi, word);
          return Err(IndexOutOfRange);
        }
        if OccursIn(word, axis[index]) {
          return Ok(true);
        }
      }
      assert !HitIn(axis, searchIndex, hi, word);
      assert AxisScan(axis, searchIndex, hi, word) == Ok(false);
    }
    return Ok(false);
  }

  /** The grid's rows and columns scanned by a worker: a hit in a row wins,
      then an overrun of the rows fails, and only then are the columns read. */
  lemma ScanRowsColumns(rows: seq<string>, columns: seq<string>, lo: nat, hi: nat, word: string)
    requires |rows| == |columns|
    ensures Scan([rows, columns], lo, hi, word) ==
      if HitIn(rows, lo, hi, word) then Ok(true)
      else if lo < hi && |rows| < hi then Err(IndexOutOfRange)
      else Ok(HitIn(columns, lo, hi, word))
  {
    assert [rows, columns][1..] == [columns];
    assert [columns][1..] == [];
    assert Scan([columns], lo, hi, word) == AxisScan(columns, lo, hi, word) by {
      assert Scan([], lo, hi, word) == Ok(false);
    }
  }

  /** The words of the grid's rows and columns, shared by all searches. */
  class Grid {
    const axisLength: nat
    const windowSize: nat
    const rows: seq<string>
    const columns: seq<string>
    /** The grid string the axes were cut from. */
    ghost const cells: string

    ghost predicate Valid() {
      |cells| == Area(axisLength) && rows == Rows(cells, axisLength) && columns == Columns(rows)
    }

    /** `Grid.__init__` once the size check has passed. */
    constructor (grid: string, n: nat, w: nat)
      requires |grid| == n * n
      ensures Valid() && cells == grid && axisLength == n && windowSize == w
    {
      AreaIsSquare(n);
      axisLength, windowSize, cells := n, w, grid;
      rows := Rows(grid, n);
      columns := Columns(Rows(grid, n));
    }

    /** `Grid.__init__`: a grid string that is not `n * n` characters long is refused. */
    static method Load(grid: string, n: nat, w: nat) returns (r: Result<Grid>)
      ensures r.Err? <==> |grid| != n * n
      ensures r.Err? ==> r.error == InvalidGridSize
      ensures r.Ok? ==> fresh(r.value) && r.value.Valid() && r.value.cells == grid
      ensures r.Ok? ==> r.value.axisLength == n && r.value.windowSize == w
    {
      if |grid| != n * n {
        return Err(InvalidGridSize);
      }
      var g := new Grid(grid, n, w);
      return Ok(g);
    }

    /** `Grid.linear_search`: walk the rows and the columns in pairs, as
        `zip` does, and report whether either member of a pair holds the
        word. On a loaded grid this is the word search question itself. */
    method LinearSearch(word: string) returns (found: bool)
      ensures found <==> OnAxis(rows, columns, word)
      ensures Valid() ==> (found <==> InGrid(cells, axisLength, word))
    {
      if Valid() {
        OnAxisIsInGrid(cells, axisLength, word);
      }
      for k := 0 to Min(|rows|, |columns|)
        invariant forall m :: 0 <= m < k ==> !IsSubstring(word, rows[m]) && !IsSubstring(word, columns[m])
      {
        if OccursIn(word, rows[k]) {
          return true;
        } else if OccursIn(word, columns[k]) {
          return true;
        }
      }
      return false;
    }

    /** The window starting at `s` runs past the last row, and the rows it
        does cover do not hold the word: its worker fails. */
    ghost predicate Overruns(s: nat, word: string) {
      axisLength < s + windowSize && !HitIn(rows, s, axisLength, word)
    }

    /** What the worker for the window at `s` answers: it fails exactly when
        the window overruns, and otherwise reports whether the window holds
        the word. */
    lemma WindowOutcome(s: nat, word: string)
      requires windowSize > 0 && |rows| == |columns| == axisLength
      ensures Scan([rows, columns], s, s + windowSize, word).Err? <==> Overruns(s, word)
      ensures Scan([rows, columns], s, s + windowSize, word).Err? ==> Scan([rows, columns], s, s + windowSize, word).error == IndexOutOfRange
      ensures Scan([rows, columns], s, s + windowSize, word).Ok? ==> Scan([rows, columns], s, s + windowSize, word).value == WindowHit(rows, columns, s, windowSize, word)
    {
      ScanRowsColumns(rows, columns, s, s + windowSize, word);
      if axisLength < s + windowSize && HitIn(rows, s, s + windowSize, word) {
        var k :| s <= k < s + windowSize && k < |rows| && IsSubstring(word, rows[k]);
        assert k < axisLength;
      }
    }

    /** Some window of the scan overruns. */
    ghost predicate SomeWindowOverruns(word: string)
      requires windowSize > 0
    {
      exists k :: 0 <= k < |Range(0, axisLength, windowSize)| && Overruns(Range(0, axisLength, windowSize)[k], word)
    }

    /** When the window size divides the axis length no window overruns, so
        the windowed search answers, and gives the linear search's answer. */
    lemma DividedScanSucceeds(word: string)
      requires windowSize > 0 && axisLength % windowSize == 0
      ensures !SomeWindowOverruns(word)
    {
      RangeFits(0, axisLength, windowSize);
    }

    /** The first `|results|` windows do not overrun, and `results` holds
        whether each of them has the word. */
    ghost predicate Answered(starts: seq<nat>, results: seq<bool>, word: string) {
      |results| <= |starts| &&
      forall m :: 0 <= m < |results| ==> !Overruns(starts[m], word) && results[m] == WindowHit(rows, columns, starts[m], windowSize, word)
    }

    lemma AnsweredNext(starts: seq<nat>, results: seq<bool>, word: string, hit: bool)
      requires Answered(starts, results, word) && |results| < |starts|
      requires !Overruns(starts[|results|], word) && hit == WindowHit(rows, columns, starts[|results|], windowSize, word)
      ensures Answered(starts, results + [hit], word)
    {
      var more := results + [hit];
      forall m | 0 <= m < |more|
        ensures !Overruns(starts[m], word) && more[m] == WindowHit(rows, columns, starts[m], windowSize, word)
      {
        if m < |results| {
          assert more[m] == results[m];
        }
      }
    }

    /** `Grid.multiprocess_search`: one task per window start
        `0, w, 2w, ...` below the axis length, each answered by
        `ContainsWord`, and the answers ORed. A zero window step is refused,
        a failing task fails the search, and otherwise the answer is that of
        the linear search. */
    method MultiprocessSearch(word: string) returns (r: Result<bool>)
      requires Valid()
      ensures windowSize == 0 ==> r == Err(ZeroWindowStep)
      ensures windowSize > 0 ==> (r.Err? <==> SomeWindowOverruns(word))
      ensures r.Err? && windowSize > 0 ==> r.error == IndexOutOfRange
      ensures r.Ok? ==> (r.value <==> OnAxis(rows, columns, word))
    {
      if windowSize == 0 {
        return Err(ZeroWindowStep);
      }
      ColumnCount(cells, axisLength);
      var n, w := axisLength, windowSize;
      var shared := Some(Share([rows, columns], w));
      var starts := Range(0, n, w);
      var results: seq<bool> := [];
      for k := 0 to |starts|
        invariant |results| == k && Answered(starts, results, word)
      {
        var o := ContainsWord(shared, word, starts[k]);
        WindowOutcome(starts[k], word);
        if o.Err? {
          assert Overruns(starts[k], word);
          return Err(o.error);
        }
        AnsweredNext(starts, results, word, o.value);
        results := results + [o.value];
      }
      if OnAxis(rows, columns, word) {
        CoverFinds(rows, columns, w, word);
      }
      if true in results {
        var m :| 0 <= m < |results| && results[m];
        HitOnAxis(rows, columns, starts[m], w, word);
      }
      return Ok(true in results);
    }
  }

  /** The window of `w` indices from `s` holds the word in a row or a column. */
  ghost predicate WindowHit(rows: seq<string>, columns: seq<string>, s: nat, w: nat, word: string) {
    HitIn(rows, s, s + w, word) || HitIn(columns, s, s + w, word)
  }

  /** A word in some row or column is in the window of some window start:
      the windows cover every axis index. */
  lemma CoverFinds(rows: seq<string>, columns: seq<string>, w: nat, word: string)
    requires |rows| == |columns| && w > 0 && OnAxis(rows, columns, word)
    ensures exists m :: 0 <= m < |Range(0, |rows|, w)| && WindowHit(rows, columns, Range(0, |rows|, w)[m], w, word)
  {
    var starts := Range(0, |rows|, w);
    var k :| 0 <= k < |rows| && k < |columns| && (IsSubstring(word, rows[k]) || IsSubstring(word, columns[k]));
    RangeCovers(0, |rows|, w, k);
    var m :| 0 <= m < |starts| && starts[m] <= k < starts[m] + w;
    assert WindowHit(rows, columns, starts[m], w, word);
  }

  /** A window that holds the word shows it on an axis. */
  lemma HitOnAxis(rows: seq<string>, columns: seq<string>, s: nat, w: nat, word: string)
    requires |rows| == |columns| && WindowHit(rows, columns, s, w, word)
    ensures OnAxis(rows, columns, word)
  {
    if HitIn(rows, s, s + w, word) {
      var k :| s <= k < s + w && k < |rows| && IsSubstring(word, rows[k]);
      assert k < |columns|;
    } else {
      var k :| s <= k < s + w && k < |columns| && IsSubstring(word, columns[k]);
      assert k < |rows|;
    }
  }
}
