/** The prefix tree `TrieDict` of utils/trie.py (and, under the names
    `add_child` and `__add__`, of the earlier trie.py): a node maps each
    character to its child node. There is no end-of-word flag, so every node
    accepts and the tree stands for the set of character paths from its root. */
module PrefixTree {
  import opened Strings
  import opened Errors

  datatype TrieDict = Node(children: map<char, TrieDict>)

  const Empty: TrieDict := Node(map[])

  /** `add_children`: a non-empty sequence is added as its first character
      followed by the rest; the empty sequence adds nothing. */
  function AddChildren(t: TrieDict, children: string): TrieDict
    decreases |children|, 1
  {
    if |children| != 0 then AddChild(t, children[0], children[1..]) else t
  }

  /** `_add_child`: the existing child node for `character` is reused (a fresh
      empty node when there is none), the rest is added below it, and the node
      is stored back under `character`. */
  function AddChild(t: TrieDict, character: char, children: string): TrieDict
    decreases |children| + 1, 0
  {
    var node := if character in t.children then t.children[character] else Empty;
    Node(t.children[character := AddChildren(node, children)])
  }

  /** `__contains__`: walk the word one character at a time; false at the
      first character with no child, true once the last one has matched. The
      empty word is not accepted: unpacking it into first and rest fails. */
  predicate Contains(t: TrieDict, word: string)
    requires |word| > 0
    decreases |word|
  {
    var character, remaining := word[0], word[1..];
    if character in t.children then
      if |remaining| > 0 then Contains(t.children[character], remaining) else true
    else
      false
  }

  /** The node reached by following the characters of `word` from `t`, built
      from the end of the word: the path `word[..|word|-1]` followed by one
      more step. `None` when some character along the way has no child. */
  function Walk(t: TrieDict, word: string): Option<TrieDict>
    decreases |word|
  {
    if |word| == 0 then Some(t)
    else
      match Walk(t, word[..|word| - 1])
      case None => None
      case Some(n) => if word[|word| - 1] in n.children then Some(n.children[word[|word| - 1]]) else None
  }

  /** The recursive union that `__or__` computes: a key of both operands
      keeps the union of both subtrees, a key of one operand keeps its subtree. */
  function Union(a: TrieDict, b: TrieDict): TrieDict
    decreases a
  {
    Node(map c | c in a.children.Keys + b.children.Keys ::
      if c in a.children && c in b.children then Union(a.children[c], b.children[c])
      else if c in a.children then a.children[c]
      else b.children[c])
  }

  /** `__or__`: first every key of both operands is merged recursively, then
      every key only `other` has is copied across. */
  method Merge(self: TrieDict, other: TrieDict) returns (r: TrieDict)
    ensures r == Union(self, other)
    decreases self
  {
    var children := self.children;
    var both := self.children.Keys * other.children.Keys;
    var pending := both;
    while pending != {}
      invariant pending <= both
      invariant children.Keys == self.children.Keys
      invariant forall c :: c in children ==>
        children[c] == if c in both - pending then Union(self.children[c], other.children[c]) else self.children[c]
      decreases pending
    {
      var child :| child in pending;
      var node := Merge(self.children[child], other.children[child]);
      children := children[child := node];
      pending := pending - {child};
    }
    var unique := other.children.Keys - both;
    pending := unique;
    while pending != {}
      invariant pending <= unique
      invariant children.Keys == self.children.Keys + (unique - pending)
      invariant forall c :: c in children ==> children[c] == Union(self, other).children[c]
      decreases pending
    {
      var child :| child in pending;
      children := children[child := other.children[child]];
      pending := pending - {child};
    }
    r := Node(children);
  }

  /** Nothing is contained in the empty tree. */
  lemma EmptyContainsNothing(word: string)
    requires |word| > 0
    ensures !Contains(Empty, word)
  {
  }

  /** After `add_children(s)` the tree contains what it contained before and
      in addition exactly the non-empty prefixes of `s`. */
  lemma {:induction false} AddChildrenContains(t: TrieDict, s: string, word: string)
    requires |word| > 0
    ensures Contains(AddChildren(t, s), word) <==> Contains(t, word) || IsPrefix(word, s)
    decreases |s|
  {
    if |s| > 0 {
      var c := s[0];
      var node := if c in t.children then t.children[c] else Empty;
      if word[0] == c && |word| > 1 {
        AddChildrenContains(node, s[1..], word[1..]);
        assert IsPrefix(word, s) <==> IsPrefix(word[1..], s[1..]);
      }
    }
  }

  /** Containment is closed under non-empty prefixes: every node accepts. */
  lemma {:induction false} ContainsPrefix(t: TrieDict, word: string, k: nat)
    requires |word| > 0 && 0 < k <= |word| && Contains(t, word)
    ensures Contains(t, word[..k])
    decreases |word|
  {
    if k > 1 {
      ContainsPrefix(t.children[word[0]], word[1..], k - 1);
      assert word[..k][1..] == word[1..][..k - 1];
    }
  }

  /** `__contains__` agrees with walking the path: a non-empty word is
      contained exactly when every character along it has a child. */
  lemma {:induction false} ContainsIsWalk(t: TrieDict, word: string)
    requires |word| > 0
    ensures Contains(t, word) <==> Walk(t, word).Some?
    decreases |word|
  {
    if |word| > 1 {
      var c := word[0];
      if c in t.children {
        ContainsIsWalk(t.children[c], word[1..]);
        WalkFirst(t, word);
      } else {
        WalkFirst(t, word);
      }
    }
  }

  /** Walking a word is stepping to the child of its first character and walking the rest. */
  lemma {:induction false} WalkFirst(t: TrieDict, word: string)
    requires |word| > 0
    ensures Walk(t, word) == if word[0] in t.children then Walk(t.children[word[0]], word[1..]) else None
    decreases |word|
  {
    if |word| > 1 {
      var init := word[..|word| - 1];
      WalkFirst(t, init);
      assert init[0] == word[0];
      assert init[1..] == word[1..][..|word[1..]| - 1];
    }
  }

  /** The search stops at the first missing character: when the prefix
      `word[..k]` leads to a node without a child for `word[k]`, the word is
      not contained. */
  lemma FirstMissingCharacter(t: TrieDict, word: string, k: nat, n: TrieDict)
    requires k < |word| && Walk(t, word[..k]) == Some(n) && word[k] !in n.children
    ensures !Contains(t, word)
  {
    assert word[..k + 1][..k] == word[..k];
    if Contains(t, word) {
      ContainsPrefix(t, word, k + 1);
      ContainsIsWalk(t, word[..k + 1]);
      assert false;
    }
  }

  /** The union contains a word exactly when one of the operands does. */
  lemma {:induction false} UnionContains(a: TrieDict, b: TrieDict, word: string)
    requires |word| > 0
    ensures Contains(Union(a, b), word) <==> Contains(a, word) || Contains(b, word)
    decreases |word|
  {
    var c := word[0];
    if |word| > 1 && c in a.children && c in b.children {
      UnionContains(a.children[c], b.children[c], word[1..]);
    }
  }

  /** A tree is determined by the words it contains: two trees containing the
      same words are the same tree. */
  lemma {:induction false} SameWordsSameTree(a: TrieDict, b: TrieDict)
    requires forall w :: |w| > 0 ==> (Contains(a, w) <==> Contains(b, w))
    ensures a == b
    decreases a
  {
    forall c | c in a.children ensures c in b.children {
      assert Contains(a, [c]);
    }
    forall c | c in b.children ensures c in a.children {
      assert Contains(b, [c]);
    }
    forall c | c in a.children ensures a.children[c] == b.children[c] {
      forall w | |w| > 0 ensures Contains(a.children[c], w) <==> Contains(b.children[c], w) {
        assert ([c] + w)[0] == c && ([c] + w)[1..] == w;
        assert Contains(a, [c] + w) <==> Contains(a.children[c], w);
        assert Contains(b, [c] + w) <==> Contains(b.children[c], w);
      }
      SameWordsSameTree(a.children[c], b.children[c]);
    }
    assert a.children == b.children;
  }

  /** Merging is commutative: `a | b` and `b | a` are the same tree. */
  lemma UnionCommutes(a: TrieDict, b: TrieDict)
    ensures Union(a, b) == Union(b, a)
  {
    forall w | |w| > 0 ensures Contains(Union(a, b), w) <==> Contains(Union(b, a), w) {
      UnionContains(a, b, w);
      UnionContains(b, a, w);
    }
    SameWordsSameTree(Union(a, b), Union(b, a));
  }

  /** Merging is associative, so the partial tries may be folded in any grouping. */
  lemma UnionAssociates(a: TrieDict, b: TrieDict, c: TrieDict)
    ensures Union(a, Union(b, c)) == Union(Union(a, b), c)
  {
    forall w | |w| > 0 ensures Contains(Union(a, Union(b, c)), w) <==> Contains(Union(Union(a, b), c), w) {
      UnionContains(a, Union(b, c), w);
      UnionContains(b, c, w);
      UnionContains(Union(a, b), c, w);
      UnionContains(a, b, w);
    }
    SameWordsSameTree(Union(a, Union(b, c)), Union(Union(a, b), c));
  }

  /** Merging with an empty tree, on either side, changes nothing. */
  lemma UnionEmpty(t: TrieDict)
    ensures Union(t, Empty) == t && Union(Empty, t) == t
  {
    forall w | |w| > 0 ensures Contains(Union(t, Empty), w) <==> Contains(t, w) {
      UnionContains(t, Empty, w);
    }
    forall w | |w| > 0 ensures Contains(Union(Empty, t), w) <==> Contains(t, w) {
      UnionContains(Empty, t, w);
    }
    SameWordsSameTree(Union(t, Empty), t);
    SameWordsSameTree(Union(Empty, t), t);
  }

  /** Merging a tree with itself changes nothing. */
  lemma UnionIdempotent(t: TrieDict)
    ensures Union(t, t) == t
  {
    forall w | |w| > 0 ensures Contains(Union(t, t), w) <==> Contains(t, w) {
      UnionContains(t, t, w);
    }
    SameWordsSameTree(Union(t, t), t);
  }

  /** Adding the same sequence twice is the same as adding it once. */
  lemma AddChildrenIdempotent(t: TrieDict, s: string)
    ensures AddChildren(AddChildren(t, s), s) == AddChildren(t, s)
  {
    forall w | |w| > 0 ensures Contains(AddChildren(AddChildren(t, s), s), w) <==> Contains(AddChildren(t, s), w) {
      AddChildrenContains(AddChildren(t, s), s, w);
      AddChildrenContains(t, s, w);
    }
    SameWordsSameTree(AddChildren(AddChildren(t, s), s), AddChildren(t, s));
  }

  /** The order in which two sequences are added does not matter. */
  lemma AddChildrenCommutes(t: TrieDict, s1: string, s2: string)
    ensures AddChildren(AddChildren(t, s1), s2) == AddChildren(AddChildren(t, s2), s1)
  {
    forall w | |w| > 0 ensures Contains(AddChildren(AddChildren(t, s1), s2), w) <==> Contains(AddChildren(AddChildren(t, s2), s1), w) {
      AddChildrenContains(AddChildren(t, s1), s2, w);
      AddChildrenContains(t, s1, w);
      AddChildrenContains(AddChildren(t, s2), s1, w);
      AddChildrenContains(t, s2, w);
    }
    SameWordsSameTree(AddChildren(AddChildren(t, s1), s2), AddChildren(AddChildren(t, s2), s1));
  }
}
