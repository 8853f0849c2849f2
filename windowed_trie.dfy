/** The windowed trie builder of utils/trie.py: each worker fills one
    prefix tree with the capped row and column runs of the cells of one
    square window, and the `Trie` folds the window trees into its root. */
module WindowedTrie {
  import opened Strings
  import opened Errors
  import opened Ranges
  import opened PrefixTree
  import opened GridAxes

  /** The data `TrieWorker.share_data` publishes to the workers. */
  datatype WorkerData = WorkerData(grid: string, axisLength: nat, windowSize: nat, maxWordLength: nat)

  /** The shared buffer holds `n * n` cells, so it can be viewed as an `n` by `n` array. */
  predicate WellShaped(d: WorkerData) {
    |d.grid| == Area(d.axisLength)
  }

  /** `grid[i, j:min(n, j + max)]`: from cell `(i, j)` rightwards, at most
      `max` cells and not past the end of the row. */
  function RowRun(d: WorkerData, i: nat, j: nat): string
    requires WellShaped(d) && i < d.axisLength
  {
    Slice(Row(d.grid, d.axisLength, i), j, Min(d.axisLength, j + d.maxWordLength))
  }

  /** `grid[i:min(n, i + max), j]`: from cell `(i, j)` downwards, at most
      `max` cells and not past the end of the column. */
  function ColumnRun(d: WorkerData, i: nat, j: nat): string
    requires WellShaped(d) && j < d.axisLength
  {
    Slice(Column(d.grid, d.axisLength, j), i, Min(d.axisLength, i + d.maxWordLength))
  }

  /** The word is a prefix of a run inserted for cell `(i, j)`. */
  ghost predicate CellHas(d: WorkerData, i: nat, j: nat, word: string)
    requires WellShaped(d)
  {
    i < d.axisLength && j < d.axisLength && (IsPrefix(word, RowRun(d, i, j)) || IsPrefix(word, ColumnRun(d, i, j)))
  }

  /** Some cell of rows `[x, i)` and columns `[y, y + windowSize)` has the word. */
  ghost predicate BlockHas(d: WorkerData, x: nat, y: nat, i: nat, word: string)
    requires WellShaped(d)
  {
    exists a, b :: x <= a < i && y <= b < y + d.windowSize && CellHas(d, a, b, word)
  }

  /** Some cell of row `i` and columns `[y, j)` has the word. */
  ghost predicate LineHas(d: WorkerData, i: nat, y: nat, j: nat, word: string)
    requires WellShaped(d)
  {
    exists b :: y <= b < j && CellHas(d, i, b, word)
  }

  /** Some cell of the window at `(x, y)` has the word. */
  ghost predicate WindowHas(d: WorkerData, x: nat, y: nat, word: string)
    requires WellShaped(d)
  {
    BlockHas(d, x, y, x + d.windowSize, word)
  }

  /** Finishing row `i` of a block adds that row's cells to the block. */
  lemma BlockStep(d: WorkerData, x: nat, y: nat, i: nat, word: string)
    requires WellShaped(d) && x <= i
    ensures BlockHas(d, x, y, i + 1, word) <==> BlockHas(d, x, y, i, word) || LineHas(d, i, y, y + d.windowSize, word)
  {
    if BlockHas(d, x, y, i + 1, word) {
      var a, b :| x <= a < i + 1 && y <= b < y + d.windowSize && CellHas(d, a, b, word);
      if a < i {
        assert BlockHas(d, x, y, i, word);
      } else {
        assert LineHas(d, i, y, y + d.windowSize, word);
      }
    }
    if LineHas(d, i, y, y + d.windowSize, word) {
      var b :| y <= b < y + d.windowSize && CellHas(d, i, b, word);
      assert BlockHas(d, x, y, i + 1, word);
    }
  }

  /** `TrieWorker.iterate_window`: a fresh tree filled with the row run and
      the column run of every cell of the window at `(x, y)`. The loops are
      not clamped to the grid, so a window that sticks out of it fails at the
      first cell outside; until data was shared there is nothing to read. */
  method IterateWindow(shared: Option<WorkerData>, x: nat, y: nat) returns (r: Result<TrieDict>)
    requires shared.Some? ==> WellShaped(shared.value)
    ensures shared.None? ==> r == Err(UninitializedWorker)
    ensures shared.Some? ==> (r.Err? <==>
      shared.value.windowSize > 0 && (shared.value.axisLength < x + shared.value.windowSize || shared.value.axisLength < y + shared.value.windowSize))
    ensures shared.Some? && r.Err? ==> r.error == IndexOutOfRange
    ensures shared.Some? && r.Ok? ==> forall word :: |word| > 0 ==> (Contains(r.value, word) <==> WindowHas(shared.value, x, y, word))
  {
    if shared.None? {
      return Err(UninitializedWorker);
    }
    var d := shared.value;
    var n, w := d.axisLength, d.windowSize;
    var node := Empty;
    for i := x to x + w
      invariant x < i ==> i <= n && y + w <= n
      invariant forall word :: |word| > 0 ==> (Contains(node, word) <==> BlockHas(d, x, y, i, word))
    {
      for j := y to y + w
        invariant y < j ==> i < n && j <= n
        invariant forall word :: |word| > 0 ==> (Contains(node, word) <==> BlockHas(d, x, y, i, word) || LineHas(d, i, y, j, word))
      {
        if i >= n {
          return Err(IndexOutOfRange);
        }
        ghost var before := node;
        node := AddChildren(node, RowRun(d, i, j));
        if j >= n {
          return Err(IndexOutOfRange);
        }
        node := AddChildren(node, ColumnRun(d, i, j));
        forall word | |word| > 0
          ensures Contains(node, word) <==> BlockHas(d, x, y, i, word) || LineHas(d, i, y, j + 1, word)
        {
          AddChildrenContains(before, RowRun(d, i, j), word);
          AddChildrenContains(AddChildren(before, RowRun(d, i, j)), ColumnRun(d, i, j), word);
          LineStep(d, i, y, j, word);
        }
      }
      forall word | |word| > 0
        ensures Contains(node, word) <==> BlockHas(d, x, y, i + 1, word)
      {
        BlockStep(d, x, y, i, word);
      }
    }
    return Ok(node);
  }

  /** Finishing cell `(i, j)` adds that cell to the line. */
  lemma LineStep(d: WorkerData, i: nat, y: nat, j: nat, word: string)
    requires WellShaped(d) && y <= j
    ensures LineHas(d, i, y, j + 1, word) <==> LineHas(d, i, y, j, word) || CellHas(d, i, j, word)
  {
    if LineHas(d, i, y, j + 1, word) {
      var b :| y <= b < j + 1 && CellHas(d, i, b, word);
      if b < j {
        assert LineHas(d, i, y, j, word);
      }
    }
    if LineHas(d, i, y, j, word) {
      var b :| y <= b < j && CellHas(d, i, b, word);
      assert LineHas(d, i, y, j + 1, word);
    }
    if CellHas(d, i, j, word) {
      assert LineHas(d, i, y, j + 1, word);
    }
  }

  /** A word is a prefix of the row run of cell `(i, j)` exactly when it is
      at most `max` long and reads rightwards from that cell. */
  lemma RowRunWord(d: WorkerData, i: nat, j: nat, word: string)
    requires WellShaped(d) && i < d.axisLength && j < d.axisLength && |word| > 0
    ensures IsPrefix(word, RowRun(d, i, j)) <==> |word| <= d.maxWordLength && RightFrom(d.grid, d.axisLength, i, j, word)
  {
    var n, row := d.axisLength, Row(d.grid, d.axisLength, i);
    var hi := Min(n, j + d.maxWordLength);
    var run := RowRun(d, i, j);
    if j < hi {
      assert run == row[j..hi];
      forall t | 0 <= t < |word| && j + t < hi ensures run[t] == At(d.grid, n, i, j + t) {
        RowCells(d.grid, n, i, j + t);
      }
      if |word| <= d.maxWordLength && RightFrom(d.grid, n, i, j, word) {
        assert run[..|word|] == word;
      }
    }
  }

  /** A word is a prefix of the column run of cell `(i, j)` exactly when it
      is at most `max` long and reads downwards from that cell. */
  lemma ColumnRunWord(d: WorkerData, i: nat, j: nat, word: string)
    requires WellShaped(d) && i < d.axisLength && j < d.axisLength && |word| > 0
    ensures IsPrefix(word, ColumnRun(d, i, j)) <==> |word| <= d.maxWordLength && DownFrom(d.grid, d.axisLength, i, j, word)
  {
    var n, column := d.axisLength, Column(d.grid, d.axisLength, j);
    var hi := Min(n, i + d.maxWordLength);
    var run := ColumnRun(d, i, j);
    if i < hi {
      assert run == column[i..hi];
      forall t | 0 <= t < |word| && i + t < hi ensures run[t] == At(d.grid, n, i + t, j) {
        assert run[t] == column[i + t];
      }
      if |word| <= d.maxWordLength && DownFrom(d.grid, n, i, j, word) {
        assert run[..|word|] == word;
      }
    }
  }

  /** The runs inserted for a cell hold exactly the words of at most `max`
      characters that start there, rightwards or downwards. */
  lemma CellWord(d: WorkerData, i: nat, j: nat, word: string)
    requires WellShaped(d) && i < d.axisLength && j < d.axisLength && |word| > 0
    ensures CellHas(d, i, j, word) <==>
      |word| <= d.maxWordLength && (RightFrom(d.grid, d.axisLength, i, j, word) || DownFrom(d.grid, d.axisLength, i, j, word))
  {
    RowRunWord(d, i, j, word);
    ColumnRunWord(d, i, j, word);
  }

  /** `range(0, n, w) x range(0, n, w)`: the corners of the windows, and
      none at all for a zero step, which `range` refuses. */
  function Windows(n: nat, w: nat): (windows: seq<(nat, nat)>)
    ensures w == 0 ==> windows == []
  {
    if w == 0 then [] else Product(Range(0, n, w), Range(0, n, w))
  }

  /** Some window of the tiling has the word. */
  ghost predicate TilingHas(d: WorkerData, word: string)
    requires WellShaped(d)
  {
    exists k :: 0 <= k < |Windows(d.axisLength, d.windowSize)| &&
      WindowHas(d, Windows(d.axisLength, d.windowSize)[k].0, Windows(d.axisLength, d.windowSize)[k].1, word)
  }

  /** The windows together hold exactly the words of at most `max`
      characters that read rightwards or downwards in the grid: every cell
      lies in some window, and every window cell is a grid cell. */
  lemma TilingIsGrid(d: WorkerData, word: string)
    requires WellShaped(d) && d.windowSize > 0 && |word| > 0
    ensures TilingHas(d, word) <==> |word| <= d.maxWordLength && InGrid(d.grid, d.axisLength, word)
  {
    if TilingHas(d, word) {
      TilingInGrid(d, word);
    }
    if |word| <= d.maxWordLength && InGrid(d.grid, d.axisLength, word) {
      GridInTiling(d, word);
    }
  }

  lemma TilingInGrid(d: WorkerData, word: string)
    requires WellShaped(d) && d.windowSize > 0 && |word| > 0 && TilingHas(d, word)
    ensures |word| <= d.maxWordLength && InGrid(d.grid, d.axisLength, word)
  {
    var windows := Windows(d.axisLength, d.windowSize);
    var k :| 0 <= k < |windows| && WindowHas(d, windows[k].0, windows[k].1, word);
    var a, b :| windows[k].0 <= a < windows[k].0 + d.windowSize && windows[k].1 <= b < windows[k].1 + d.windowSize && CellHas(d, a, b, word);
    CellWord(d, a, b, word);
  }

  lemma GridInTiling(d: WorkerData, word: string)
    requires WellShaped(d) && d.windowSize > 0 && |word| > 0
    requires |word| <= d.maxWordLength && InGrid(d.grid, d.axisLength, word)
    ensures TilingHas(d, word)
  {
    var n := d.axisLength;
    var i, j :| 0 <= i < n && 0 <= j < n && (RightFrom(d.grid, n, i, j, word) || DownFrom(d.grid, n, i, j, word));
    CellWord(d, i, j, word);
    CellInTiling(d, i, j, word);
  }

  /** Every cell lies in some window of the tiling. */
  lemma CornerCovers(n: nat, w: nat, i: nat, j: nat)
    requires w > 0 && i < n && j < n
    ensures exists k :: 0 <= k < |Windows(n, w)| && InWindow(Windows(n, w)[k], w, i, j)
  {
    var starts := Range(0, n, w);
    var a := StartCovering(n, w, i);
    var b := StartCovering(n, w, j);
    ProductHas(starts, starts, a, b);
    CornerListed(Windows(n, w), (a, b), w, i, j);
  }

  /** A start of `range(0, n, w)` whose window covers index `i`. */
  lemma StartCovering(n: nat, w: nat, i: nat) returns (s: nat)
    requires w > 0 && i < n
    ensures s in Range(0, n, w) && s <= i < s + w
  {
    var starts := Range(0, n, w);
    RangeCovers(0, n, w, i);
    var p :| 0 <= p < |starts| && starts[p] <= i < starts[p] + w;
    s := starts[p];
  }

  /** A listed corner whose window covers the cell gives an index of one. */
  lemma CornerListed(windows: seq<(nat, nat)>, corner: (nat, nat), w: nat, i: nat, j: nat)
    requires corner in windows && InWindow(corner, w, i, j)
    ensures exists k :: 0 <= k < |windows| && InWindow(windows[k], w, i, j)
  {
    var k :| 0 <= k < |windows| && windows[k] == corner;
    assert InWindow(windows[k], w, i, j);
  }

  /** Cell `(i, j)` lies in the window with corner `corner`. */
  predicate InWindow(corner: (nat, nat), w: nat, i: nat, j: nat) {
    corner.0 <= i < corner.0 + w && corner.1 <= j < corner.1 + w
  }

  lemma CellInTiling(d: WorkerData, i: nat, j: nat, word: string)
    requires WellShaped(d) && d.windowSize > 0 && CellHas(d, i, j, word)
    ensures TilingHas(d, word)
  {
    CornerCovers(d.axisLength, d.windowSize, i, j);
    var windows := Windows(d.axisLength, d.windowSize);
    var k :| 0 <= k < |windows| && InWindow(windows[k], d.windowSize, i, j);
    assert WindowHas(d, windows[k].0, windows[k].1, word);
  }

  /** A window that stays inside the grid. */
  predicate WindowFits(n: nat, w: nat, corner: (nat, nat)) {
    corner.0 + w <= n && corner.1 + w <= n
  }

  /** Every window of the tiling stays inside the grid exactly when the
      window size divides the axis length. */
  lemma TilingFits(n: nat, w: nat)
    requires w > 0 && n > 0
    ensures (forall k :: 0 <= k < |Windows(n, w)| ==> WindowFits(n, w, Windows(n, w)[k])) <==> n % w == 0
  {
    var starts, windows := Range(0, n, w), Windows(n, w);
    RangeFits(0, n, w);
    if n % w == 0 {
      CornersFit(starts, windows, n, w);
    } else {
      var p :| 0 <= p < |starts| && n < starts[p] + w;
      ProductHas(starts, starts, starts[p], starts[p]);
      CornerOverruns(windows, (starts[p], starts[p]), n, w);
    }
  }

  /** Corners drawn from starts whose windows fit give windows that fit. */
  lemma CornersFit(starts: seq<nat>, windows: seq<(nat, nat)>, n: nat, w: nat)
    requires forall k :: 0 <= k < |windows| ==> windows[k].0 in starts && windows[k].1 in starts
    requires forall p :: 0 <= p < |starts| ==> starts[p] + w <= n
    ensures forall k :: 0 <= k < |windows| ==> WindowFits(n, w, windows[k])
  {
    forall k | 0 <= k < |windows| ensures WindowFits(n, w, windows[k]) {
      var p :| 0 <= p < |starts| && starts[p] == windows[k].0;
      var q :| 0 <= q < |starts| && starts[q] == windows[k].1;
    }
  }

  /** A listed corner whose window overruns gives an index of one. */
  lemma CornerOverruns(windows: seq<(nat, nat)>, corner: (nat, nat), n: nat, w: nat)
    requires corner in windows && !WindowFits(n, w, corner)
    ensures exists k :: 0 <= k < |windows| && !WindowFits(n, w, windows[k])
  {
    var k :| 0 <= k < |windows| && windows[k] == corner;
    assert !WindowFits(n, w, windows[k]);
  }

  /** `Trie._calculate_chunksize`: the number of windows over four tasks per
      worker, rounded up. */
  function ChunkSize(count: nat, workers: nat): (chunk: nat)
    requires workers > 0
  {
    var chunk, extra := count / (4 * workers), count % (4 * workers);
    if extra != 0 then chunk + 1 else chunk
  }

  /** The chunk size is the least number of windows per task with which
      four tasks per worker take all windows. */
  lemma ChunkSizeIsCeiling(count: nat, workers: nat)
    requires workers > 0
    ensures ChunkSize(count, workers) * (4 * workers) >= count
    ensures ChunkSize(count, workers) > 0 ==> (ChunkSize(count, workers) - 1) * (4 * workers) < count
  {
    var d := 4 * workers;
    var q, extra := count / d, count % d;
    assert count == q * d + extra;
    assert (q + 1) * d == q * d + d;
    if q > 0 {
      assert (q - 1) * d == q * d - d;
    }
  }

  /** No chunk size is zero unless there are no windows. */
  lemma ChunkSizeZero(count: nat, workers: nat)
    requires workers > 0
    ensures ChunkSize(count, workers) == 0 <==> count == 0
  {
    ChunkSizeIsCeiling(count, workers);
  }

  /** Between one and forty windows on ten workers make chunks of one. */
  lemma ChunkSizeOfTenWorkers(count: nat)
    requires 1 <= count <= 40
    ensures ChunkSize(count, 10) == 1
  {
    ModUnique(count, 40, if count == 40 then 1 else 0, if count == 40 then 0 else count);
  }

  /** `order` lists each of `count` window indices once: the order in
      which `imap_unordered` hands the window trees back. */
  predicate IsOrdering(order: seq<nat>, count: nat) {
    |order| == count && (forall k :: 0 <= k < |order| ==> order[k] < count) && (forall k :: 0 <= k < count ==> k in order)
  }

  /** One of the first `k` windows handed back, of the corners `windows`, has the word. */
  ghost predicate HandedBackHas(d: WorkerData, windows: seq<(nat, nat)>, order: seq<nat>, k: nat, word: string)
    requires WellShaped(d)
  {
    exists m :: 0 <= m < k && m < |order| && order[m] < |windows| && WindowHas(d, windows[order[m]].0, windows[order[m]].1, word)
  }

  /** One of the first `k` windows of the tiling handed back has the word. */
  ghost predicate MergedHas(d: WorkerData, order: seq<nat>, k: nat, word: string)
    requires WellShaped(d)
  {
    HandedBackHas(d, Windows(d.axisLength, d.windowSize), order, k, word)
  }

  lemma MergedStep(d: WorkerData, order: seq<nat>, k: nat, word: string)
    requires WellShaped(d) && k < |order| && order[k] < |Windows(d.axisLength, d.windowSize)|
    ensures MergedHas(d, order, k + 1, word) <==>
      MergedHas(d, order, k, word) || WindowHas(d, Windows(d.axisLength, d.windowSize)[order[k]].0, Windows(d.axisLength, d.windowSize)[order[k]].1, word)
  {
    var windows := Windows(d.axisLength, d.windowSize);
    if HandedBackHas(d, windows, order, k + 1, word) {
      HandedBackSplit(d, windows, order, k, word);
    }
    if HandedBackHas(d, windows, order, k, word) {
      HandedBackGrows(d, windows, order, k, word);
    }
    if WindowHas(d, windows[order[k]].0, windows[order[k]].1, word) {
      assert HandedBackHas(d, windows, order, k + 1, word);
    }
  }

  /** A word among the first `k + 1` windows is among the first `k` or in window `k`. */
  lemma HandedBackSplit(d: WorkerData, windows: seq<(nat, nat)>, order: seq<nat>, k: nat, word: string)
    requires WellShaped(d) && k < |order| && order[k] < |windows|
    requires HandedBackHas(d, windows, order, k + 1, word)
    ensures HandedBackHas(d, windows, order, k, word) || WindowHas(d, windows[order[k]].0, windows[order[k]].1, word)
  {
    var m :| 0 <= m < k + 1 && m < |order| && order[m] < |windows| && WindowHas(d, windows[order[m]].0, windows[order[m]].1, word);
    if m < k {
      assert HandedBackHas(d, windows, order, k, word);
    }
  }

  /** A word among the first `k` windows is among the first `k + 1`. */
  lemma HandedBackGrows(d: WorkerData, windows: seq<(nat, nat)>, order: seq<nat>, k: nat, word: string)
    requires WellShaped(d) && HandedBackHas(d, windows, order, k, word)
    ensures HandedBackHas(d, windows, order, k + 1, word)
  {
    var m :| 0 <= m < k && m < |order| && order[m] < |windows| && WindowHas(d, windows[order[m]].0, windows[order[m]].1, word);
    assert 0 <= m < k + 1;
  }

  /** Whatever has been merged so far comes from the tiling. */
  lemma MergedInTiling(d: WorkerData, order: seq<nat>, k: nat, word: string)
    requires WellShaped(d) && MergedHas(d, order, k, word)
    ensures TilingHas(d, word)
  {
    var windows := Windows(d.axisLength, d.windowSize);
    var m :| 0 <= m < k && m < |order| && order[m] < |windows| && WindowHas(d, windows[order[m]].0, windows[order[m]].1, word);
    assert 0 <= order[m] < |windows|;
  }

  /** Once every window has been handed back, the merge holds the tiling. */
  lemma MergedAll(d: WorkerData, order: seq<nat>, word: string)
    requires WellShaped(d) && IsOrdering(order, |Windows(d.axisLength, d.windowSize)|)
    ensures MergedHas(d, order, |order|, word) <==> TilingHas(d, word)
  {
    var windows := Windows(d.axisLength, d.windowSize);
    if MergedHas(d, order, |order|, word) {
      MergedInTiling(d, order, |order|, word);
    }
    if TilingHas(d, word) {
      var k :| 0 <= k < |windows| && WindowHas(d, windows[k].0, windows[k].1, word);
      assert k in order;
      var m :| 0 <= m < |order| && order[m] == k;
      assert MergedHas(d, order, |order|, word);
    }
  }

  /** The tree holds exactly the words of the first `k` windows handed back. */
  ghost predicate HoldsMerged(t: TrieDict, d: WorkerData, order: seq<nat>, k: nat)
    requires WellShaped(d)
  {
    forall word :: |word| > 0 ==> (Contains(t, word) <==> MergedHas(d, order, k, word))
  }

  /** Merging the tree of the next window handed back extends what the root holds. */
  lemma MergeNext(t: TrieDict, node: TrieDict, d: WorkerData, order: seq<nat>, k: nat)
    requires WellShaped(d) && k < |order| && order[k] < |Windows(d.axisLength, d.windowSize)|
    requires HoldsMerged(t, d, order, k)
    requires forall word :: |word| > 0 ==>
      (Contains(node, word) <==> WindowHas(d, Windows(d.axisLength, d.windowSize)[order[k]].0, Windows(d.axisLength, d.windowSize)[order[k]].1, word))
    ensures HoldsMerged(Union(t, node), d, order, k + 1)
  {
    forall word | |word| > 0
      ensures Contains(Union(t, node), word) <==> MergedHas(d, order, k + 1, word)
    {
      UnionContains(t, node, word);
      MergedStep(d, order, k, word);
    }
  }

  /** Every word of the tree is a word of the `n * n` grid of at most `cap` characters. */
  ghost predicate SoundTree(t: TrieDict, grid: string, n: nat, cap: nat)
    requires |grid| == Area(n)
  {
    forall word :: |word| > 0 && Contains(t, word) ==> |word| <= cap && InGrid(grid, n, word)
  }

  /** The tree holds exactly the words of the `n * n` grid of at most `cap` characters. */
  ghost predicate ExactTree(t: TrieDict, grid: string, n: nat, cap: nat)
    requires |grid| == Area(n)
  {
    forall word :: |word| > 0 ==> (Contains(t, word) <==> |word| <= cap && InGrid(grid, n, word))
  }

  /** Two trees that each hold exactly the grid's words within the cap are
      the same tree: a filled root does not depend on the order the window
      trees were merged in. */
  lemma ExactTreeUnique(a: TrieDict, b: TrieDict, grid: string, n: nat, cap: nat)
    requires |grid| == Area(n) && ExactTree(a, grid, n, cap) && ExactTree(b, grid, n, cap)
    ensures a == b
  {
    SameWordsSameTree(a, b);
  }

  /** The empty tree holds no word at all. */
  lemma EmptySound(grid: string, n: nat, cap: nat)
    requires |grid| == Area(n)
    ensures SoundTree(Empty, grid, n, cap)
  {
    forall word | |word| > 0 ensures !Contains(Empty, word) {
      EmptyContainsNothing(word);
    }
  }

  /** A tree holding some of the windows holds only words of the grid within the cap. */
  lemma MergedSound(t: TrieDict, d: WorkerData, order: seq<nat>, k: nat)
    requires WellShaped(d) && d.windowSize > 0 && HoldsMerged(t, d, order, k)
    ensures SoundTree(t, d.grid, d.axisLength, d.maxWordLength)
  {
    forall word | |word| > 0 && Contains(t, word)
      ensures |word| <= d.maxWordLength && InGrid(d.grid, d.axisLength, word)
    {
      MergedInTiling(d, order, k, word);
      TilingIsGrid(d, word);
    }
  }

  /** A tree holding all the windows holds exactly the words of the grid within the cap. */
  lemma MergedComplete(t: TrieDict, d: WorkerData, order: seq<nat>)
    requires WellShaped(d) && d.windowSize > 0 && IsOrdering(order, |Windows(d.axisLength, d.windowSize)|)
    requires HoldsMerged(t, d, order, |order|)
    ensures ExactTree(t, d.grid, d.axisLength, d.maxWordLength)
  {
    forall word | |word| > 0
      ensures Contains(t, word) <==> |word| <= d.maxWordLength && InGrid(d.grid, d.axisLength, word)
    {
      MergedAll(d, order, word);
      TilingIsGrid(d, word);
    }
  }

  /** The first `k` windows handed back all fit in the grid. */
  ghost predicate FitSoFar(n: nat, w: nat, order: seq<nat>, k: nat) {
    forall m :: 0 <= m < k && m < |order| && order[m] < |Windows(n, w)| ==> WindowFits(n, w, Windows(n, w)[order[m]])
  }

  /** A window whose worker succeeded fits, so one more window handed back fits. */
  lemma FitNext(n: nat, w: nat, order: seq<nat>, k: nat)
    requires FitSoFar(n, w, order, k) && k < |order| && order[k] < |Windows(n, w)|
    requires WindowFits(n, w, Windows(n, w)[order[k]])
    ensures FitSoFar(n, w, order, k + 1)
  {
  }

  /** When every window handed back fits, every window of the tiling fits. */
  lemma AllHandedBack(n: nat, w: nat, order: seq<nat>)
    requires IsOrdering(order, |Windows(n, w)|)
    requires FitSoFar(n, w, order, |order|)
    ensures forall k :: 0 <= k < |Windows(n, w)| ==> WindowFits(n, w, Windows(n, w)[k])
  {
    var windows := Windows(n, w);
    forall k | 0 <= k < |windows| ensures WindowFits(n, w, windows[k]) {
      assert k in order;
      var m :| 0 <= m < |order| && order[m] == k;
    }
  }

  /** There are windows exactly when the grid is not empty. */
  lemma WindowCount(n: nat, w: nat)
    requires w > 0
    ensures |Windows(n, w)| == 0 <==> n == 0
  {
    var starts := Range(0, n, w);
    if n > 0 {
      MulAtLeast(|starts|, |starts|);
    }
  }

  /** The merge loop of `Trie._fill_trie`: the root starts empty, and each
      window tree, in the order the workers hand them back, is merged into
      it. A worker that fails stops the loop with the root merged so far. */
  method MergeWindows(d: WorkerData, order: seq<nat>) returns (root: TrieDict, r: Result<()>)
    requires WellShaped(d) && d.windowSize > 0
    requires IsOrdering(order, |Windows(d.axisLength, d.windowSize)|)
    ensures SoundTree(root, d.grid, d.axisLength, d.maxWordLength)
    ensures r.Err? <==> exists k :: 0 <= k < |Windows(d.axisLength, d.windowSize)| && !WindowFits(d.axisLength, d.windowSize, Windows(d.axisLength, d.windowSize)[k])
    ensures r.Err? ==> r.error == IndexOutOfRange
    ensures r.Ok? ==> ExactTree(root, d.grid, d.axisLength, d.maxWordLength)
  {
    var n, w := d.axisLength, d.windowSize;
    var windows := Windows(n, w);
    root := Empty;
    EmptySound(d.grid, n, d.maxWordLength);
    assert HoldsMerged(root, d, order, 0);
    for k := 0 to |order|
      invariant FitSoFar(n, w, order, k)
      invariant HoldsMerged(root, d, order, k)
    {
      var node := IterateWindow(Some(d), windows[order[k]].0, windows[order[k]].1);
      if node.Err? {
        MergedSound(root, d, order, k);
        assert !WindowFits(n, w, windows[order[k]]);
        return root, Err(node.error);
      }
      FitNext(n, w, order, k);
      MergeNext(root, node.value, d, order, k);
      root := Merge(root, node.value);
    }
    MergedComplete(root, d, order);
    AllHandedBack(n, w, order);
    return root, Ok(());
  }

  /** The prefix tree of utils/trie.py together with the grid it was
      filled from. */
  class Trie {
    const axisLength: nat
    /** The grid cells, row by row, as `_load_grid` copies them into the shared buffer. */
    const grid: string
    var root: TrieDict
    /** The word length cap the root was filled with. */
    ghost var maxWordLength: nat

    /** Every word of the root is a word of the grid within the cap. */
    ghost predicate Sound()
      reads this
    {
      |grid| == Area(axisLength) && SoundTree(root, grid, axisLength, maxWordLength)
    }

    /** The root holds exactly the words of the grid within the cap. */
    ghost predicate Valid()
      reads this
    {
      |grid| == Area(axisLength) && ExactTree(root, grid, axisLength, maxWordLength)
    }

    /** `Trie.__init__` up to `_load_grid`, once its size check has passed. */
    constructor (grid: string, n: nat)
      requires |grid| == n * n
      ensures this.grid == grid && axisLength == n && |grid| == Area(n)
      ensures root == Empty
    {
      AreaIsSquare(n);
      this.grid, axisLength, root := grid, n, Empty;
    }

    /** `Trie._fill_trie`: tile the grid with the windows of corners
        `range(0, n, w) x range(0, n, w)`, have a worker build each window's
        tree, and merge the trees into the root in the order they come back.
        A zero window size is refused by `range`, no windows at all by the
        chunk size check of `imap_unordered`, and a window that sticks out
        of the grid fails its worker. Whatever the order, a finished root
        holds exactly the grid's words within the cap. */
    method FillTrie(windowSize: nat, maxWord: nat, workers: nat, order: seq<nat>) returns (r: Result<()>)
      requires |grid| == Area(axisLength) && workers > 0
      requires IsOrdering(order, |Windows(axisLength, windowSize)|)
      modifies this`root, this`maxWordLength
      ensures maxWordLength == maxWord
      ensures r.Err? ==> Sound()
      ensures windowSize == 0 ==> r == Err(ZeroWindowStep) && root == Empty
      ensures windowSize > 0 && axisLength == 0 ==> r == Err(InvalidChunkSize) && root == Empty
      ensures windowSize > 0 && axisLength > 0 ==> (r.Err? <==> axisLength % windowSize != 0)
      ensures windowSize > 0 && axisLength > 0 && r.Err? ==> r.error == IndexOutOfRange
      ensures r.Ok? ==> Valid()
    {
      root, maxWordLength := Empty, maxWord;
      EmptySound(grid, axisLength, maxWord);
      if windowSize == 0 {
        return Err(ZeroWindowStep);
      }
      var n, w := axisLength, windowSize;
      var d := WorkerData(grid, n, w, maxWord);
      var windows := Windows(n, w);
      var chunk := ChunkSize(|windows|, workers);
      ChunkSizeZero(|windows|, workers);
      WindowCount(n, w);
      if chunk < 1 {
        return Err(InvalidChunkSize);
      }
      var merged, outcome := MergeWindows(d, order);
      root := merged;
      TilingFits(n, w);
      return outcome;
    }

    /** `Trie.__init__`: the grid must have `n * n` characters, and then the
        root is filled. Any failure of either step is the caller's. */
    static method New(grid: string, n: nat, w: nat, maxWord: nat, workers: nat, order: seq<nat>) returns (r: Result<Trie>)
      requires workers > 0 && IsOrdering(order, |Windows(n, w)|)
      ensures |grid| != n * n ==> r == Err(InvalidGridSize)
      ensures |grid| == n * n && w == 0 ==> r == Err(ZeroWindowStep)
      ensures |grid| == n * n && w > 0 && n == 0 ==> r == Err(InvalidChunkSize)
      ensures |grid| == n * n && w > 0 && n > 0 ==> (r.Err? <==> n % w != 0)
      ensures |grid| == n * n && w > 0 && n > 0 && r.Err? ==> r.error == IndexOutOfRange
      ensures r.Ok? ==> fresh(r.value) && r.value.Valid()
      ensures r.Ok? ==> r.value.grid == grid && r.value.axisLength == n && r.value.maxWordLength == maxWord
    {
      if |grid| != n * n {
        return Err(InvalidGridSize);
      }
      var t := new Trie(grid, n);
      var filled := t.FillTrie(w, maxWord, workers, order);
      if filled.Err? {
        return Err(filled.error);
      }
      return Ok(t);
    }

    /** `Trie.__contains__`: look the word up in the root. The empty word
        fails, as unpacking it does; a filled root answers whether the word
        is in the grid and not longer than the cap. */
    function Has(word: string): (r: Result<bool>)
      reads this
      ensures r.Err? <==> |word| == 0
      ensures r.Err? ==> r.error == EmptyWord
      ensures Valid() && r.Ok? ==> (r.value <==> |word| <= maxWordLength && InGrid(grid, axisLength, word))
    {
      if |word| == 0 then Err(EmptyWord) else Ok(Contains(root, word))
    }
  }
}
