# Word search over an n × n letter grid

This project models the core of the word search program (Bendee/wordsearch). The program answers one question: does a word read left to right in some row, or top to bottom in some column, of an `n × n` grid of letters? The grid is given as one string of `n * n` characters, row after row.

The program has two back ends and a cache in front of them.

- **Prefix tree** (`utils/trie.py`, and its earlier version `trie.py`). The grid is cut into square windows. One worker builds a prefix tree per window: for every cell it inserts the run of at most `max_word` characters to the right and the run downwards. The window trees are then merged into one root. A word is looked up by walking its characters from the root.
- **Axis scan** (`utils/grid.py`). The grid is split into its rows, and the rows are transposed into columns. `linear_search` tests each row and column for the word as a substring. `multiprocess_search` hands one block of `window_size` row and column indices to each task and ORs the answers.
- **Cache** (`wordsearch.py`). `WordSearch.is_present` asks the trie once per word and remembers the answer.

The modules, in dependency order:

- `Errors` holds the failures the Python code raises, as values. `Result` and `Option` carry them.
- `Strings` holds prefixes, substrings (Python's `w in s`) and capped slices.
- `Ranges` holds `range(lo, hi, step)`, `itertools.product`, and the facts about how windows cover a range.
- `PrefixTree` holds the `TrieDict` datatype, insertion, membership and union. The `__or__` merge loop is a method.
- `GridAxes` holds `_generate_rows` and `_generate_columns`, and the meaning of "the word is in the grid".
- `GridSearch` holds the `Grid` class: its size check, `linear_search`, `_GridWorker.contains_word` and `multiprocess_search`.
- `WindowedTrie` holds `TrieWorker.iterate_window`, the window tiling, `_calculate_chunksize`, the merge fold of `_fill_trie`, and the `Trie` class.
- `LegacyTrie` holds the earlier `trie.py`: its constant grid, `read_grid`, and the `sum` of the window trees.
- `WordSearchFacade` holds the `WordSearch` class with its cache.

**Headline results.**

- A filled trie holds a non-empty word exactly when the word has at most `max_word` letters and reads rightwards or downwards from some cell. This is `WindowedTrie.Trie.Has`, resting on `WindowedTrie.TilingIsGrid`.
- This holds for every order in which the workers hand their trees back: `FillTrie` takes the order as an argument, and `ExactTreeUnique` shows that the root is the same tree whatever the order.
- The trie gives the same answer as `linear_search` for every non-empty word within the cap (`WordSearchFacade.SearchesAgree`). Once the cap is at least the axis length, they agree on every non-empty word (`WordSearchFacade.SearchesAgreeOnEveryWord`).
- `linear_search` and the windowed `multiprocess_search` agree whenever the windowed search does not fail.
- The windowed search never fails when the window size divides the axis length.

**Where the code and its description differ.** The window loops of `iterate_window` and `contains_word` are not clamped to the grid.

- A window size that does not divide the axis length makes the last windows reach past the grid.
  - `iterate_window` then fails with an index error.
  - `contains_word` fails too, unless it finds the word in the rows it can read first.
- The model follows the code: these cases are the `IndexOutOfRange` error, under exactly these conditions.
- With no windows at all (`n == 0`), `imap_unordered` refuses the chunk size 0 that `_calculate_chunksize` returns. The model makes this the `InvalidChunkSize` error.

## Model

| member | source | states |
|---|---|---|
| PrefixTree.AddChildrenContains | utils/trie.py:25-41 | after `add_children(s)` the tree holds a non-empty word exactly when it held it before or the word is a non-empty prefix of `s`; so an empty `s` adds nothing and reused children keep their paths; the earlier `add_children` / `add_child` of trie.py:20-34 are the same code |
| PrefixTree.AddChildrenIdempotent | utils/trie.py:25-41 | inserting the same sequence twice gives the same tree as inserting it once |
| PrefixTree.AddChildrenCommutes | utils/trie.py:25-41 | the order in which two sequences are inserted does not change the tree |
| PrefixTree.Merge | utils/trie.py:43-58 | the two loops of `__or__` (merge the shared keys recursively, then copy the keys only `other` has) compute the union of the two trees; the earlier `__add__` of trie.py:36-47 is the same code |
| PrefixTree.UnionContains | utils/trie.py:43-58 | the union holds a word exactly when one of the two trees holds it |
| PrefixTree.UnionCommutes | utils/trie.py:43-58 | merging `b` into `a` and `a` into `b` give the same tree |
| PrefixTree.UnionAssociates | utils/trie.py:43-58 | the merges may be grouped in any way |
| PrefixTree.UnionEmpty | utils/trie.py:43-58 | merging with an empty tree, on either side, changes nothing |
| PrefixTree.UnionIdempotent | utils/trie.py:43-58 | merging a tree with itself changes nothing |
| PrefixTree.SameWordsSameTree | utils/trie.py:23-69 | a tree is determined by the words it holds |
| PrefixTree.EmptyContainsNothing | utils/trie.py:168 | the empty `TrieDict()` holds no word |
| PrefixTree.ContainsIsWalk | utils/trie.py:60-69 | `__contains__` on a non-empty word is true exactly when the characters of the word spell a path of child keys from the root; the earlier `__contains__` of trie.py:49-57 is the same code |
| PrefixTree.FirstMissingCharacter | utils/trie.py:60-69 | when the path of a prefix of the word ends at a node without the next character, the word is not held |
| PrefixTree.ContainsPrefix | utils/trie.py:60-69 | every non-empty prefix of a held word is held too, since no node marks an end of word |
| Strings.OccursIn | utils/grid.py:49 | the substring test `word in s` is true exactly when `word` stands at some position of `s` |
| GridAxes.Rows | utils/grid.py:72-77 | `_generate_rows` gives `n` rows, each of `n` characters |
| GridAxes.RowsAndColumns | utils/grid.py:72-84 | row `r` is `grid[n*r : n*(r+1)]`; there are `n` columns, each of length `n`, and `columns[j][r] == rows[r][j]` |
| GridAxes.RowsAt | utils/grid.py:72-77 | character `j` of row `i` is grid cell `i * n + j` |
| GridAxes.RowsJoin | utils/grid.py:72-77 | the rows, joined back together, are the grid string |
| GridAxes.Columns | utils/grid.py:79-84 | `zip(*rows)` joined: as many columns as the shortest row is long, each as long as there are rows, and `columns[j][i] == rows[i][j]` |
| GridAxes.ColumnsAreColumns | utils/grid.py:79-84 | column `j` is the sequence of grid cells `(0, j), (1, j), ..., (n-1, j)` |
| GridAxes.TransposeTwice | utils/grid.py:79-84 | transposing the columns of equal-length rows gives back the rows |
| GridAxes.OnAxisIsInGrid | utils/grid.py:72-97 | a word is a substring of some row or column (at the same index, as `zip` pairs them) exactly when it reads rightwards or downwards from some cell of the grid |
| GridSearch.Grid.Load | utils/grid.py:57-66 | construction fails exactly when the grid string is not `n * n` characters long; otherwise the rows and columns are those of the grid |
| GridSearch.Grid.LinearSearch | utils/grid.py:90-97 | true exactly when some row or column, walked in pairs, holds the word; on a loaded grid, exactly when the word reads rightwards or downwards in the grid |
| GridSearch.ContainsWord | utils/grid.py:37-52 | fails when no data was shared; otherwise scans every axis at the indices `s .. s + w - 1` and stops at the first index holding the word (true) or past the end of the axis (index error), else false |
| GridSearch.ScanRowsColumns | utils/grid.py:47-52 | on the rows and then the columns: a row hit wins, a row overrun fails, and only then do the columns decide |
| GridSearch.Grid.WindowOutcome | utils/grid.py:38-52 | the task for window start `s` fails exactly when the window runs past the last row and the rows it covers do not hold the word; otherwise it reports whether the window's rows or columns hold the word |
| GridSearch.Grid.MultiprocessSearch | utils/grid.py:99-117 | a zero window size fails as `range` does; otherwise the search fails exactly when some window task fails, and an answer is the OR of the windows, which equals the linear search's answer |
| GridSearch.Grid.DividedScanSucceeds | utils/grid.py:108-117 | when the window size divides the axis length no window task fails |
| GridSearch.CoverFinds | utils/grid.py:108-117 | a word on some axis index is found by the window whose block contains that index |
| GridSearch.HitOnAxis | utils/grid.py:108-117 | a window that finds the word shows it on some axis |
| WindowedTrie.IterateWindow | utils/trie.py:98-123 | fails when no data was shared; fails with an index error exactly when the window sticks out of the grid; otherwise the tree holds exactly the non-empty prefixes of the capped row run and column run of the window's cells; the earlier `iterate_window` of trie.py:65-74 runs the same loops on its constants |
| WindowedTrie.RowRunWord | utils/trie.py:116-118 | a word is a prefix of `grid[i, j:min(n, j + max)]` exactly when it has at most `max` letters and reads rightwards from cell `(i, j)` |
| WindowedTrie.ColumnRunWord | utils/trie.py:119-121 | a word is a prefix of `grid[i:min(n, i + max), j]` exactly when it has at most `max` letters and reads downwards from cell `(i, j)` |
| WindowedTrie.TilingIsGrid | utils/trie.py:170-173 | the windows of corners `range(0, n, w) × range(0, n, w)` together hold exactly the grid's words of at most `max` letters |
| WindowedTrie.CornerCovers | utils/trie.py:170-173 | every grid cell lies in the window of some corner |
| WindowedTrie.TilingFits | utils/trie.py:170-173 | every window stays inside the grid exactly when `w` divides `n` |
| WindowedTrie.WindowCount | utils/trie.py:170-173 | there are windows exactly when the grid is not empty |
| WindowedTrie.ChunkSizeIsCeiling | utils/trie.py:205-215 | the chunk size is `ceil(windows / (4 * workers))`: enough for four tasks per worker, and one less would not be |
| WindowedTrie.ChunkSizeZero | utils/trie.py:205-215 | the chunk size is zero exactly when there are no windows |
| WindowedTrie.ChunkSizeOfTenWorkers | tests/utils/test_trie.py:39-45 | with ten workers, between one and forty windows give a chunk size of 1 |
| WindowedTrie.MergeWindows | utils/trie.py:191-199 | merging the window trees in any order in which they come back: the root holds only grid words within the cap; it fails exactly when some window sticks out of the grid; a finished root holds exactly the grid's words within the cap |
| WindowedTrie.MergedStep | utils/trie.py:197-199 | merging one more window tree adds exactly that window's words |
| WindowedTrie.ExactTreeUnique | utils/trie.py:191-199 | two roots holding exactly the grid's words are the same tree, so the merge order does not matter |
| WindowedTrie.Trie.FillTrie | utils/trie.py:166-203 | the root starts empty; a zero window size fails as `range` does; no windows fail the chunk size check; otherwise it fails exactly when `w` does not divide `n`; a filled root holds exactly the grid's words of at most `max_word` letters; a failed one holds only such words |
| WindowedTrie.Trie.New | utils/trie.py:128-156 | `Trie.__init__`: fails for a grid string that is not `n * n` long, then as `_fill_trie` does; a trie built without failing is filled |
| WindowedTrie.Trie.Has | utils/trie.py:217-219 | the empty word fails; on a filled trie a non-empty word is present exactly when it has at most `max_word` letters and reads rightwards or downwards in the grid |
| LegacyTrie.RemoveSpacesKeeps | trie.py:77-78 | `replace(' ', '')` leaves no space and keeps every other character as often as it occurs |
| LegacyTrie.RemoveSpacesAppend | trie.py:77-78 | removing the spaces of two joined strings is removing them from each and joining the results, so the kept characters keep their order |
| LegacyTrie.ReadGridCells | trie.py:12-15 | `read_grid()` gives the five rows of `GRID` one after the other, `AXIS_LENGTH * AXIS_LENGTH = 25` letters |
| LegacyTrie.OneWindow | trie.py:92-95 | with `AXIS_LENGTH = WINDOW_SIZE = 5` there is one window, at `(0, 0)` |
| LegacyTrie.Sum | trie.py:99 | `sum(nodes, TrieDict())` holds a word exactly when one of the trees holds it |
| LegacyTrie.BuildTrie | trie.py:92-99 | `pool.map` of `iterate_window` then the sum: fails exactly when some window sticks out of the grid, and otherwise holds exactly the grid's words within the cap |
| LegacyTrie.BuildGrid | trie.py:85-99 | on the program's own constants the build succeeds and holds exactly the words of at most 24 letters of the 5 × 5 grid |
| WordSearchFacade.WordSearch.New | wordsearch.py:22-24 | the trie is built as `Trie.__init__` builds it, with the same failures, and the cache starts empty with no lookups made |
| WordSearchFacade.WordSearch.IsPresent | wordsearch.py:26-31 | the answer is always the trie's; a cached word leaves the cache as it was and costs no lookup in the trie; an uncached word costs one lookup and is cached with its answer, and no other entry changes; a failing lookup caches nothing |
| WordSearchFacade.SearchesAgree | wordsearch.py:26-31 | the trie and `linear_search` of the same grid give the same answer for every non-empty word within the cap |
| WordSearchFacade.SearchesAgreeOnEveryWord | wordsearch.py:26-31 | when the cap is at least the axis length, the trie and `linear_search` of the same grid give the same answer for every non-empty word |

## Left out

- Processes and pools (`multiprocessing.Pool`, `starmap`, `map`, `imap_unordered`) are not modelled; the tasks run one after another.
  - The order in which `imap_unordered` hands the trees back is the `order` argument of `FillTrie`.
  - The pool size is the `workers` argument.
  - Class attributes shared with the workers are assumed to reach them, as they do when processes are forked.
- The shared buffers are not modelled (`RawArray`, `c_char`, `c_wchar_p`, and numpy's `fromstring`, `frombuffer`, `copyto` and `reshape`). The grid is a string of `n * n` characters, indexed `i * n + j`, and byte decoding is not modelled.
  - How numpy behaves on a `0 × 0` grid is not modelled; the model lets the chunk size check fail first.
- `_add_child` and `__or__` update dictionaries in place, and `__or__` shares subtrees of `other` with the result. The model passes trees as values: insertion is a function, and `Merge` rebuilds the children map in a loop. Aliasing between trees is not captured.
- Axis lengths, window sizes and word caps are natural numbers. Python's negative values are not modelled.
- `trie.py`'s `init_window` assigns local names only and has no effect; it is not modelled. The model gives the earlier `iterate_window` its constants and the grid directly, as the forked workers see them.
- `_format_grid` and `trie.py`'s `format_grid` are not modelled. In `utils/trie.py` the size check before `_format_grid` ensures the string has exactly `n * n` characters. `trie.py` calls `format_grid` with no size check; there the length of 25 follows from `ReadGridCells`.
- `print` output, reading grid and word files (`read_grid` and `read_words` in wordsearch.py, `utils/files.py`), the command line, and grid and word generation are not modelled.
- `wordsearch.py` cannot be imported as written: the default `ROW_LENGTH` is undefined, and `trie.py` has no `Trie` class. `WordSearch.New` takes the axis length explicitly, and its trie is the one of `utils/trie.py`.
- `WordSearch.__init__`'s other defaults, `window_size = WINDOW_SIZE = 500` and `max_word = MAX_WORD_LENGTH = 24`, are not modelled as defaults: `WordSearch.New` takes the window size and the cap as explicit parameters.
- `WordSearchFacade.WordSearch.IsPresent`: the cost of a lookup is a ghost count of trie lookups (`lookups`). Time and memory are not modelled.
- The empty word behaves differently in the two back ends. The trie raises on unpacking (`EmptyWord`). `linear_search` answers true on any non-empty grid. `SearchesAgree` is therefore stated for non-empty words only.
