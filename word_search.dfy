/** The `WordSearch` front end of wordsearch.py: a filled trie and a cache
    of the answers given so far. */
module WordSearchFacade {
  import opened Errors
  import opened GridAxes
  import opened GridSearch
  import opened WindowedTrie

  class WordSearch {
    const trie: Trie
    /** `_cache`: the answer given for each word asked about so far. */
    var cache: map<string, bool>
    /** How many words have been looked up in the trie so far. */
    ghost var lookups: nat

    /** The trie is filled, and every cached answer is the trie's. */
    ghost predicate Valid()
      reads this, trie
    {
      trie.Valid() && forall word :: word in cache ==> trie.Has(word) == Ok(cache[word])
    }

    /** `WordSearch.__init__` once its trie is built: the cache starts empty. */
    constructor (trie: Trie)
      requires trie.Valid()
      ensures Valid() && this.trie == trie && cache == map[] && lookups == 0
    {
      this.trie, cache, lookups := trie, map[], 0;
    }

    /** `WordSearch.__init__`: build the trie of the grid, then an empty
        cache. The trie's failures are the constructor's. */
    static method New(grid: string, n: nat, w: nat, maxWord: nat, workers: nat, order: seq<nat>) returns (r: Result<WordSearch>)
      requires workers > 0 && IsOrdering(order, |Windows(n, w)|)
      ensures |grid| != n * n ==> r == Err(InvalidGridSize)
      ensures |grid| == n * n && w == 0 ==> r == Err(ZeroWindowStep)
      ensures |grid| == n * n && w > 0 && n == 0 ==> r == Err(InvalidChunkSize)
      ensures |grid| == n * n && w > 0 && n > 0 ==> (r.Err? <==> n % w != 0)
      ensures |grid| == n * n && w > 0 && n > 0 && r.Err? ==> r.error == IndexOutOfRange
      ensures r.Ok? ==> fresh(r.value) && r.value.Valid() && r.value.cache == map[] && r.value.lookups == 0
      ensures r.Ok? ==> r.value.trie.grid == grid && r.value.trie.axisLength == n && r.value.trie.maxWordLength == maxWord
    {
      var t := Trie.New(grid, n, w, maxWord, workers, order);
      if t.Err? {
        return Err(t.error);
      }
      var search := new WordSearch(t.value);
      return Ok(search);
    }

    /** `WordSearch.is_present`: a cached word is answered from the cache;
        any other word is looked up in the trie and its answer cached. A
        failing lookup caches nothing. Either way the answer is the trie's,
        so the cache never changes what is reported; only a word missing
        from the cache costs a lookup in the trie. */
    method IsPresent(word: string) returns (r: Result<bool>)
      requires Valid()
      modifies this`cache, this`lookups
      ensures Valid()
      ensures r == trie.Has(word)
      ensures word in old(cache) ==> cache == old(cache) && lookups == old(lookups)
      ensures word !in old(cache) ==> lookups == old(lookups) + 1
      ensures word !in old(cache) && r.Ok? ==> cache == old(cache)[word := r.value]
      ensures r.Err? ==> cache == old(cache)
    {
      if word !in cache {
        var found := trie.Has(word);
        lookups := lookups + 1;
        if found.Err? {
          return found;
        }
        cache := cache[word := found.value];
      }
      return Ok(cache[word]);
    }
  }

  /** The trie and the linear search of the same grid agree on every word
      the trie can hold: a word of at most `maxWordLength` letters is in the
      trie exactly when some row or column holds it. */
  lemma SearchesAgree(t: Trie, g: Grid, word: string)
    requires t.Valid() && g.Valid() && t.grid == g.cells && t.axisLength == g.axisLength
    requires 0 < |word| <= t.maxWordLength
    ensures t.Has(word) == Ok(OnAxis(g.rows, g.columns, word))
  {
    OnAxisIsInGrid(g.cells, g.axisLength, word);
  }

  /** Once the cap is at least the axis length no word of the grid is too
      long for the trie, so the two back ends agree on every non-empty word. */
  lemma SearchesAgreeOnEveryWord(t: Trie, g: Grid, word: string)
    requires t.Valid() && g.Valid() && t.grid == g.cells && t.axisLength == g.axisLength
    requires 0 < |word| && t.axisLength <= t.maxWordLength
    ensures t.Has(word) == Ok(OnAxis(g.rows, g.columns, word))
  {
    OnAxisIsInGrid(g.cells, g.axisLength, word);
  }
}
