/**
 * The prefix trie of src-tauri/src/types.rs (`TreeNode` and `Trie`).
 *
 * A `TreeNode` is owned by its parent's `HashMap` and never shared, so nodes are
 * values here; the `Trie` that `insert` mutates in place is a class holding the root.
 * What a trie means is the set of words stored in it, given by the predicate `Has`.
 */
module Tries {
  import opened Wrappers
  import opened Collections

  /** A `TreeNode`: whether a stored word ends here, and the child for each next character. */
  datatype Node = Node(word: bool, children: map<char, Node>)

  /** `TreeNode::new()` */
  const Empty: Node := Node(false, map[])

  /** The node `children.entry(c).or_insert(TreeNode::new())` yields. */
  function Child(n: Node, c: char): Node {
    if c in n.children then n.children[c] else Empty
  }

  /** `w` is stored below `n`: following `w` from `n` ends on a node marked as a word. */
  predicate Has(n: Node, w: string)
    decreases |w|
  {
    if w == [] then n.word else w[0] in n.children && Has(n.children[w[0]], w[1..])
  }

  /** The node that inserting `w` leaves in place of `n`. */
  function InsertAt(n: Node, w: string): Node
    decreases |w|
  {
    if w == [] then n.(word := true)
    else n.(children := n.children[w[0] := InsertAt(Child(n, w[0]), w[1..])])
  }

  /** What `traverse` finds: the node reached by following `p`, or None at the first missing child. */
  function Reach(n: Node, p: string): Option<Node>
    decreases |p|
  {
    if p == [] then Some(n)
    else if p[0] in n.children then Reach(n.children[p[0]], p[1..])
    else None
  }

  predicate IsPrefix(p: string, s: string) {
    |p| <= |s| && s[..|p|] == p
  }

  /** A node that ends a word or has a child. */
  predicate Live(n: Node) {
    n.word || |n.children| > 0
  }

  /**
   * Every node below `n` is live: nodes are created only along the path of an
   * inserted word, and nothing is ever removed.
   */
  ghost predicate Pruned(n: Node) {
    forall c | c in n.children :: Live(n.children[c]) && Pruned(n.children[c])
  }

  /** `L` lists, once each, the words `current + t` for the words `t` stored below `node`. */
  ghost predicate Lists(node: Node, current: string, L: seq<string>) {
    && Distinct(L)
    && forall s :: s in L <==> IsPrefix(current, s) && Has(node, s[|current|..])
  }

  /** `L` lists, once each, exactly the words stored below `root` that begin with `p`. */
  ghost predicate PrefixListing(root: Node, p: string, L: seq<string>) {
    && Distinct(L)
    && forall s :: s in L <==> IsPrefix(p, s) && Has(root, s)
  }

  lemma EmptyHasNothing(w: string)
    ensures !Has(Empty, w)
  {
  }

  /** After inserting `w`, the stored words are the old ones and `w`. */
  lemma {:induction false} InsertHas(n: Node, w: string, v: string)
    ensures Has(InsertAt(n, w), v) <==> Has(n, v) || v == w
    decreases |w|
  {
    if w != [] && v != [] && v[0] == w[0] {
      InsertHas(Child(n, w[0]), w[1..], v[1..]);
      if w[0] !in n.children {
        EmptyHasNothing(v[1..]);
      }
      assert v == w <==> v[1..] == w[1..] by {
        if v[1..] == w[1..] {
          assert v == [v[0]] + v[1..] && w == [w[0]] + w[1..];
        }
      }
    }
  }

  /** Inserting the same word twice leaves the same trie as inserting it once. */
  lemma {:induction false} InsertIdempotent(n: Node, w: string)
    ensures InsertAt(InsertAt(n, w), w) == InsertAt(n, w)
    decreases |w|
  {
    if w != [] {
      InsertIdempotent(Child(n, w[0]), w[1..]);
    }
  }

  /** Insertion order does not matter: the resulting tree is the same. */
  lemma {:induction false} InsertCommutes(n: Node, a: string, b: string)
    ensures InsertAt(InsertAt(n, a), b) == InsertAt(InsertAt(n, b), a)
    decreases |a|
  {
    if a != [] && b != [] {
      if a[0] == b[0] {
        InsertCommutes(Child(n, a[0]), a[1..], b[1..]);
      } else {
        var ab := InsertAt(InsertAt(n, a), b);
        var ba := InsertAt(InsertAt(n, b), a);
        assert ab.children == ba.children;
      }
    }
  }

  lemma {:induction false} InsertLive(n: Node, w: string)
    ensures Live(InsertAt(n, w))
  {
    if w != [] {
      assert w[0] in InsertAt(n, w).children;
    }
  }

  /** Insertion keeps every node below the root live. */
  lemma {:induction false} InsertPruned(n: Node, w: string)
    requires Pruned(n)
    ensures Pruned(InsertAt(n, w))
    decreases |w|
  {
    if w != [] {
      InsertPruned(Child(n, w[0]), w[1..]);
      InsertLive(Child(n, w[0]), w[1..]);
    }
  }

  /** Below a node reached by `p`, the stored words are the root's words that continue `p`. */
  lemma {:induction false} ReachHas(n: Node, p: string, t: string)
    requires Reach(n, p).Some?
    ensures Has(Reach(n, p).value, t) <==> Has(n, p + t)
    decreases |p|
  {
    if p != [] {
      ReachHas(n.children[p[0]], p[1..], t);
      assert (p + t)[0] == p[0] && (p + t)[1..] == p[1..] + t;
    } else {
      assert p + t == t;
    }
  }

  /** When `traverse` fails, no stored word begins with `p`. */
  lemma {:induction false} ReachNoneHasNothing(n: Node, p: string, s: string)
    requires Reach(n, p).None? && IsPrefix(p, s)
    ensures !Has(n, s)
    decreases |p|
  {
    assert p != [];
    assert s[0] == p[0];
    if p[0] in n.children {
      assert s[1..][..|p| - 1] == p[1..];
      ReachNoneHasNothing(n.children[p[0]], p[1..], s[1..]);
    }
  }

  /** Every live node of a pruned tree stores some word. */
  lemma {:induction false} LiveStoresWord(n: Node) returns (t: string)
    requires Pruned(n) && Live(n)
    ensures Has(n, t)
    decreases n
  {
    if n.word {
      t := [];
    } else {
      var c :| c in n.children;
      var u := LiveStoresWord(n.children[c]);
      t := [c] + u;
      assert t[0] == c && t[1..] == u;
    }
  }

  /** In a pruned tree, a non-empty path that exists leads to a live, pruned node. */
  lemma {:induction false} ReachLive(n: Node, p: string)
    requires Pruned(n) && p != [] && Reach(n, p).Some?
    ensures Live(Reach(n, p).value) && Pruned(Reach(n, p).value)
    decreases |p|
  {
    if |p| > 1 {
      ReachLive(n.children[p[0]], p[1..]);
    }
  }

  /** In a pruned tree, a non-empty prefix can be followed iff some stored word begins with it. */
  lemma ReachIffStored(n: Node, p: string)
    requires Pruned(n) && p != []
    ensures Reach(n, p).None? <==> forall s :: IsPrefix(p, s) ==> !Has(n, s)
  {
    if Reach(n, p).Some? {
      ReachLive(n, p);
      var t := LiveStoresWord(Reach(n, p).value);
      ReachHas(n, p, t);
      assert IsPrefix(p, p + t) && Has(n, p + t);
    } else {
      forall s | IsPrefix(p, s) ensures !Has(n, s) {
        ReachNoneHasNothing(n, p, s);
      }
    }
  }

  /** Translating a listing below a reached node into a listing of the root's words. */
  lemma ListsAtReach(n: Node, p: string, L: seq<string>)
    requires Reach(n, p).Some? && Lists(Reach(n, p).value, p, L)
    ensures PrefixListing(n, p, L)
  {
    forall s ensures s in L <==> IsPrefix(p, s) && Has(n, s) {
      if IsPrefix(p, s) {
        ReachHas(n, p, s[|p|..]);
        assert p + s[|p|..] == s;
      }
    }
  }

  /** One step of `collect_words`: the words under child `c` are the node's words continuing with `c`. */
  lemma ChildStep(node: Node, current: string, c: char, s: string)
    requires c in node.children
    ensures (IsPrefix(current + [c], s) && Has(node.children[c], s[|current| + 1..]))
        <==> (IsPrefix(current, s) && |s| > |current| && s[|current|] == c && Has(node, s[|current|..]))
  {
    var k := |current|;
    if IsPrefix(current, s) && |s| > k && s[k] == c {
      assert s[..k + 1] == s[..k] + [s[k]];
      assert s[k..][0] == c && s[k..][1..] == s[k + 1..];
    }
    if IsPrefix(current + [c], s) {
      assert s[..k] == (current + [c])[..k] == current;
      assert s[k] == (current + [c])[k] == c;
      assert s[k..][0] == c && s[k..][1..] == s[k + 1..];
    }
  }

  /**
   * Partway through `collect_words` at `node`: `L` lists the words below `node` that
   * end at `node` itself or go through a child not `pending` any more.
   */
  ghost predicate Collected(node: Node, current: string, pending: set<char>, L: seq<string>) {
    && Distinct(L)
    && forall s :: s in L <==>
         IsPrefix(current, s) && Has(node, s[|current|..]) && (|s| == |current| || s[|current|] !in pending)
  }

  /** Before the loop over the children, only `current` itself may have been pushed. */
  lemma CollectStart(node: Node, current: string)
    ensures Collected(node, current, node.children.Keys, if node.word then [current] else [])
  {
    var k := |current|;
    forall s ensures s in (if node.word then [current] else []) <==>
        IsPrefix(current, s) && Has(node, s[k..]) && (|s| == k || s[k] !in node.children.Keys)
    {
      if IsPrefix(current, s) && |s| == k {
        assert s == current && s[k..] == [];
      }
      if s == current {
        assert IsPrefix(current, s) && s[k..] == [];
      }
    }
  }

  /** Visiting child `c` adds exactly the words that go through `c`. */
  lemma CollectStep(node: Node, current: string, c: char, pending: set<char>, L: seq<string>, M: seq<string>)
    requires c in pending && c in node.children
    requires Collected(node, current, pending, L)
    requires Lists(node.children[c], current + [c], M)
    ensures Collected(node, current, pending - {c}, L + M)
  {
    var k := |current|;
    forall s ensures s in M <==> IsPrefix(current, s) && |s| > k && s[k] == c && Has(node, s[k..]) {
      ChildStep(node, current, c, s);
    }
    DistinctConcat(L, M);
  }

  class Trie {
    var root: Node

    ghost predicate Valid()
      reads this
    {
      Pruned(root)
    }

    /** `Trie::new()`: nothing is stored. */
    constructor ()
      ensures Valid() && root == Empty
      ensures forall w :: !Has(root, w)
    {
      root := Empty;
    }

    /** `insert`: marks `word` as stored, creating the missing nodes on its path. */
    method Insert(word: string)
      requires Valid()
      modifies this
      ensures Valid()
      ensures root == InsertAt(old(root), word)
      ensures forall v :: Has(root, v) <==> Has(old(root), v) || v == word
    {
      // The cursor walk `cur = cur.children.entry(c).or_insert(..)`, remembering each node passed.
      var spine := [root];
      var i := 0;
      while i < |word|
        invariant 0 <= i <= |word| && |spine| == i + 1 && spine[0] == root
        invariant forall j | 0 <= j < i :: spine[j + 1] == Child(spine[j], word[j])
      {
        spine := spine + [Child(spine[i], word[i])];
        i := i + 1;
      }
      // `cur.word = true`, then the changed nodes go back into their parents, deepest first.
      var node := spine[i].(word := true);
      while i > 0
        invariant 0 <= i <= |word| && |spine| == |word| + 1 && spine[0] == root
        invariant forall j | 0 <= j < |word| :: spine[j + 1] == Child(spine[j], word[j])
        invariant node == InsertAt(spine[i], word[i..])
      {
        i := i - 1;
        assert word[i..][0] == word[i] && word[i..][1..] == word[i + 1..];
        node := spine[i].(children := spine[i].children[word[i] := node]);
      }
      root := node;
      InsertPruned(old(root), word);
      forall v ensures Has(root, v) <==> Has(old(root), v) || v == word {
        InsertHas(old(root), word, v);
      }
    }

    /** `traverse`: follows `prefix` from the root. */
    method Traverse(prefix: string) returns (r: Option<Node>)
      ensures r == Reach(root, prefix)
      ensures r.Some? ==> forall t :: Has(r.value, t) <==> Has(root, prefix + t)
    {
      var cur := root;
      var i := 0;
      while i < |prefix|
        invariant 0 <= i <= |prefix|
        invariant Reach(root, prefix) == Reach(cur, prefix[i..])
      {
        assert prefix[i..][0] == prefix[i] && prefix[i..][1..] == prefix[i + 1..];
        if prefix[i] in cur.children {
          cur := cur.children[prefix[i]];
        } else {
          return None;
        }
        i := i + 1;
      }
      r := Some(cur);
      forall t ensures Has(r.value, t) <==> Has(root, prefix + t) {
        ReachHas(root, prefix, t);
      }
    }

    /**
     * `collect_words`: appends to `result` every word stored below `node`, spelled as
     * `current` followed by the path to it. Children are visited in the map's own,
     * unspecified order.
     */
    method CollectWords(node: Node, current: string, result: seq<string>) returns (out: seq<string>)
      ensures |result| <= |out| && out[..|result|] == result
      ensures Lists(node, current, out[|result|..])
      decreases node
    {
      out := result;
      if node.word {
        out := out + [current];
      }
      assert out[|result|..] == if node.word then [current] else [];
      CollectStart(node, current);
      var word := current;
      var pending := node.children.Keys;
      while pending != {}
        invariant pending <= node.children.Keys
        invariant word == current
        invariant |result| <= |out| && out[..|result|] == result
        invariant Collected(node, current, pending, out[|result|..])
        decreases pending
      {
        var c :| c in pending;
        var before := out;
        word := word + [c];
        out := CollectWords(node.children[c], word, out);
        word := word[..|word| - 1];
        CollectStep(node, current, c, pending, before[|result|..], out[|before|..]);
        pending := pending - {c};
        assert out[|result|..] == before[|result|..] + out[|before|..] by {
          assert out[..|before|] == before;
        }
        assert out[..|result|] == before[..|result|];
      }
    }

    /** `starts_with`: the stored words that begin with `prefix`, or None when `traverse` fails. */
    method StartsWith(prefix: string) returns (r: Option<seq<string>>)
      requires Valid()
      ensures r.None? <==> Reach(root, prefix).None?
      ensures prefix == [] ==> r.Some?
      ensures prefix != [] ==> (r.None? <==> forall s :: IsPrefix(prefix, s) ==> !Has(root, s))
      ensures r.Some? ==> PrefixListing(root, prefix, r.value)
    {
      var node := Traverse(prefix);
      if prefix != [] {
        ReachIffStored(root, prefix);
      }
      if node.Some? {
        var words := CollectWords(node.value, prefix, []);
        ListsAtReach(root, prefix, words);
        r := Some(words);
      } else {
        r := None;
      }
    }

    /**
     * `search`: like `starts_with`, but when `word` itself is stored it is pushed once
     * before `collect_words` runs and `collect_words` pushes it again.
     */
    method Search(word: string) returns (r: Option<seq<string>>)
      requires Valid()
      ensures r.None? <==> Reach(root, word).None?
      ensures word != [] ==> (r.None? <==> forall s :: IsPrefix(word, s) ==> !Has(root, s))
      ensures r.Some? && Has(root, word) ==>
                |r.value| > 0 && r.value[0] == word && multiset(r.value)[word] == 2
                && PrefixListing(root, word, r.value[1..])
      ensures r.Some? && !Has(root, word) ==> PrefixListing(root, word, r.value)
    {
      var result := [];
      var node := Traverse(word);
      if word != [] {
        ReachIffStored(root, word);
      }
      if node.Some? {
        if node.value.word {
          result := result + [word];
        }
        var head := result;
        result := CollectWords(node.value, word, result);
        ListsAtReach(root, word, result[|head|..]);
        ReachHas(root, word, []);
        assert word + [] == word;
        if node.value.word {
          assert result == [word] + result[1..];
          assert IsPrefix(word, word);
          DistinctOnce(result[1..], word);
        }
        r := Some(result);
      } else {
        r := None;
      }
    }
  }

  /** The trie test of the source: "hello" and "world" stored, three prefixes looked up. */
  method HelloWorld() returns (he: Option<seq<string>>, wo: Option<seq<string>>, foo: Option<seq<string>>)
    ensures he == Some(["hello"]) && wo == Some(["world"]) && foo == None
  {
    var t := new Trie();
    t.Insert("hello");
    t.Insert("world");
    he := t.StartsWith("he");
    wo := t.StartsWith("wo");
    foo := t.StartsWith("foo");
    assert IsPrefix("he", "hello") && !IsPrefix("he", "world");
    assert Elements(he.value) == {"hello"};
    Singleton(he.value, "hello");
    assert IsPrefix("wo", "world") && !IsPrefix("wo", "hello");
    assert Elements(wo.value) == {"world"};
    Singleton(wo.value, "world");
    assert !IsPrefix("foo", "hello") && !IsPrefix("foo", "world");
  }

  /** The empty-trie test of the source: both lookups fail. */
  method EmptyTrie() returns (found: Option<seq<string>>, prefixed: Option<seq<string>>)
    ensures found == None && prefixed == None
  {
    var t := new Trie();
    found := t.Search("hello");
    prefixed := t.StartsWith("he");
  }
}
