/** The earlier, single-grid trie.py: a fixed 5 x 5 grid, one window the
    size of the whole grid, and the window trees summed into one root. */
module LegacyTrie {
  import opened Errors
  import opened GridAxes
  import opened PrefixTree
  import opened WindowedTrie

  /** The grid as written out, five rows of five letters separated by spaces. */
  const Grid: string := "bgvtt zpibu vxzft oakis fvqwl"
  const AxisLength: nat := 5
  const WindowSize: nat := 5
  const MaxWordLength: nat := 24

  /** `str.replace(' ', '')`: the characters of `s` other than spaces, in order. */
  function RemoveSpaces(s: string): string
  {
    if |s| == 0 then ""
    else if s[0] == ' ' then RemoveSpaces(s[1..]) else [s[0]] + RemoveSpaces(s[1..])
  }

  /** The result has no space, and every other character of `s` is kept as
      often as it occurs. */
  lemma {:induction false} RemoveSpacesKeeps(s: string)
    ensures ' ' !in RemoveSpaces(s)
    ensures multiset(RemoveSpaces(s)) == multiset(s)[' ' := 0]
  {
    if |s| > 0 {
      RemoveSpacesKeeps(s[1..]);
      assert s == [s[0]] + s[1..];
    }
  }

  /** Removing spaces from two strings joined is removing them from each and
      joining the results, so the kept characters stay in their order. */
  lemma {:induction false} RemoveSpacesAppend(a: string, b: string)
    ensures RemoveSpaces(a + b) == RemoveSpaces(a) + RemoveSpaces(b)
  {
    if |a| > 0 {
      assert (a + b)[0] == a[0] && (a + b)[1..] == a[1..] + b;
      RemoveSpacesAppend(a[1..], b);
    } else {
      assert a + b == b;
    }
  }

  /** A string without spaces is left as it is. */
  lemma {:induction false} NoSpaces(s: string)
    requires ' ' !in s
    ensures RemoveSpaces(s) == s
  {
    if |s| > 0 {
      assert s[0] in s;
      assert forall c :: c in s[1..] ==> c in s;
      NoSpaces(s[1..]);
      assert s == [s[0]] + s[1..];
    }
  }

  /** `read_grid`: the grid string without its spaces, one cell per character. */
  function ReadGrid(): string
  {
    RemoveSpaces(Grid)
  }

  /** A row without spaces, a space, and the rest: the row is kept and
      the rest has its spaces removed. */
  lemma {:induction false} RowThenSpace(row: string, rest: string)
    requires ' ' !in row
    ensures RemoveSpaces(row + " " + rest) == row + RemoveSpaces(rest)
  {
    var s := row + " " + rest;
    if |row| == 0 {
      assert s[0] == ' ' && s[1..] == rest;
    } else {
      assert row[0] in row && s[0] == row[0];
      assert forall c :: c in row[1..] ==> c in row;
      assert s[1..] == row[1..] + " " + rest;
      RowThenSpace(row[1..], rest);
      assert row == [row[0]] + row[1..];
    }
  }

  /** The five rows of the grid, as the grid string writes them. */
  const GridRows: seq<string> := ["bgvtt", "zpibu", "vxzft", "oakis", "fvqwl"]

  /** No row holds a space. */
  lemma RowsWithoutSpaces()
    ensures forall k :: 0 <= k < |GridRows| ==> ' ' !in GridRows[k]
  {
  }

  /** The grid string is its rows joined by single spaces. */
  lemma GridIsRows()
    ensures Grid == GridRows[0] + " " + (GridRows[1] + " " + (GridRows[2] + " " + (GridRows[3] + " " + GridRows[4])))
  {
  }

  /** Reading the grid gives its five rows one after the other, 25 letters. */
  lemma ReadGridCells()
    ensures ReadGrid() == GridRows[0] + (GridRows[1] + (GridRows[2] + (GridRows[3] + GridRows[4])))
    ensures |ReadGrid()| == AxisLength * AxisLength
  {
    var a, b, c, e, f := GridRows[0], GridRows[1], GridRows[2], GridRows[3], GridRows[4];
    var r4 := e + " " + f;
    var r3 := c + " " + r4;
    var r2 := b + " " + r3;
    GridIsRows();
    RowsWithoutSpaces();
    RowThenSpace(a, r2);
    RowThenSpace(b, r3);
    RowThenSpace(c, r4);
    RowThenSpace(e, f);
    NoSpaces(f);
  }

  /** What the workers of trie.py share: the grid and the three constants. */
  function Shared(): (d: WorkerData)
    ensures WellShaped(d) && d.grid == ReadGrid()
    ensures d.axisLength == AxisLength && d.windowSize == WindowSize && d.maxWordLength == MaxWordLength
  {
    ReadGridCells();
    AreaIsSquare(AxisLength);
    WorkerData(ReadGrid(), AxisLength, WindowSize, MaxWordLength)
  }

  /** The corners of `product(range(0, 5, 5), range(0, 5, 5))`: one window. */
  lemma OneWindow()
    ensures Windows(AxisLength, WindowSize) == [(0, 0)]
  {
    assert Ranges.Range(0, 5, 5) == [0];
  }

  /** `sum(nodes, TrieDict())`: starting from an empty tree, add each tree in
      turn; the sum holds the words of all of them. */
  method Sum(nodes: seq<TrieDict>) returns (total: TrieDict)
    ensures forall word :: |word| > 0 ==> (Contains(total, word) <==> exists k :: 0 <= k < |nodes| && Contains(nodes[k], word))
  {
    total := Empty;
    for k := 0 to |nodes|
      invariant forall word :: |word| > 0 ==> (Contains(total, word) <==> exists m :: 0 <= m < k && Contains(nodes[m], word))
    {
      forall word | |word| > 0
        ensures Contains(Union(total, nodes[k]), word) <==> exists m :: 0 <= m < k + 1 && Contains(nodes[m], word)
      {
        UnionContains(total, nodes[k], word);
        if Contains(nodes[k], word) {
          assert 0 <= k < k + 1 && Contains(nodes[k], word);
        }
      }
      total := Merge(total, nodes[k]);
    }
  }

  /** The trees of the windows `0 .. k - 1` hold the words of those windows. */
  ghost predicate MapsWindows(d: WorkerData, windows: seq<(nat, nat)>, nodes: seq<TrieDict>)
    requires WellShaped(d)
  {
    |nodes| <= |windows| &&
    forall m, word :: 0 <= m < |nodes| && |word| > 0 ==> (Contains(nodes[m], word) <==> WindowHas(d, windows[m].0, windows[m].1, word))
  }

  /** The first `k` windows fit in the grid. */
  ghost predicate FirstFit(n: nat, w: nat, windows: seq<(nat, nat)>, k: nat) {
    forall m :: 0 <= m < k && m < |windows| ==> WindowFits(n, w, windows[m])
  }

  lemma FirstFitNext(n: nat, w: nat, windows: seq<(nat, nat)>, k: nat)
    requires FirstFit(n, w, windows, k) && k < |windows| && WindowFits(n, w, windows[k])
    ensures FirstFit(n, w, windows, k + 1)
  {
  }

  /** The main block of trie.py for any shared data: `pool.map` of
      `iterate_window` over the windows, which fails when one of them fails,
      then the sum of the trees. */
  method BuildTrie(d: WorkerData) returns (r: Result<TrieDict>)
    requires WellShaped(d) && d.windowSize > 0
    ensures r.Err? <==> exists k :: 0 <= k < |Windows(d.axisLength, d.windowSize)| && !WindowFits(d.axisLength, d.windowSize, Windows(d.axisLength, d.windowSize)[k])
    ensures r.Err? ==> r.error == IndexOutOfRange
    ensures r.Ok? ==> ExactTree(r.value, d.grid, d.axisLength, d.maxWordLength)
  {
    var n, w := d.axisLength, d.windowSize;
    var windows := Windows(n, w);
    var nodes: seq<TrieDict> := [];
    for k := 0 to |windows|
      invariant |nodes| == k && MapsWindows(d, windows, nodes)
      invariant FirstFit(n, w, windows, k)
    {
      var node := IterateWindow(Some(d), windows[k].0, windows[k].1);
      if node.Err? {
        assert !WindowFits(n, w, windows[k]);
        return Err(node.error);
      }
      FirstFitNext(n, w, windows, k);
      MapsNext(d, windows, nodes, node.value);
      nodes := nodes + [node.value];
    }
    var total := Sum(nodes);
    SumExact(d, nodes, total);
    return Ok(total);
  }

  /** Mapping one more window keeps the trees matched to their windows. */
  lemma MapsNext(d: WorkerData, windows: seq<(nat, nat)>, nodes: seq<TrieDict>, node: TrieDict)
    requires WellShaped(d) && MapsWindows(d, windows, nodes) && |nodes| < |windows|
    requires forall word :: |word| > 0 ==> (Contains(node, word) <==> WindowHas(d, windows[|nodes|].0, windows[|nodes|].1, word))
    ensures MapsWindows(d, windows, nodes + [node])
  {
    var more := nodes + [node];
    forall m, word | 0 <= m < |more| && |word| > 0
      ensures Contains(more[m], word) <==> WindowHas(d, windows[m].0, windows[m].1, word)
    {
      if m < |nodes| {
        assert more[m] == nodes[m];
      }
    }
  }

  /** The sum of the trees of all the windows holds exactly the grid's words
      within the cap. */
  lemma SumExact(d: WorkerData, nodes: seq<TrieDict>, total: TrieDict)
    requires WellShaped(d) && d.windowSize > 0
    requires MapsWindows(d, Windows(d.axisLength, d.windowSize), nodes) && |nodes| == |Windows(d.axisLength, d.windowSize)|
    requires forall word :: |word| > 0 ==> (Contains(total, word) <==> exists k :: 0 <= k < |nodes| && Contains(nodes[k], word))
    ensures ExactTree(total, d.grid, d.axisLength, d.maxWordLength)
  {
    var windows := Windows(d.axisLength, d.windowSize);
    forall word | |word| > 0
      ensures Contains(total, word) <==> |word| <= d.maxWordLength && InGrid(d.grid, d.axisLength, word)
    {
      TilingIsGrid(d, word);
      if Contains(total, word) {
        var m :| 0 <= m < |nodes| && Contains(nodes[m], word);
        assert WindowHas(d, windows[m].0, windows[m].1, word);
      }
      if TilingHas(d, word) {
        var m :| 0 <= m < |windows| && WindowHas(d, windows[m].0, windows[m].1, word);
        assert Contains(nodes[m], word);
      }
    }
  }

  /** The main block of trie.py on its own constants: the one window covers
      the 5 x 5 grid, so the sum holds exactly the grid's words of at most 24
      letters. */
  method BuildGrid() returns (r: Result<TrieDict>)
    ensures |ReadGrid()| == Area(AxisLength)
    ensures r.Ok? && ExactTree(r.value, ReadGrid(), AxisLength, MaxWordLength)
  {
    var d := Shared();
    r := BuildTrie(d);
    TilingFits(AxisLength, WindowSize);
  }
}
