/**
 The pointer-based trie over the lowercase letters (data_structure/trie/trie.h).
 The root keeps, as ghost state, which node each prefix leads to.
 */
module TrieOfWords {

  predicate IsLower(c: char) {
    'a' <= c <= 'z'
  }

  predicate Lowercase(w: string) {
    forall i | 0 <= i < |w| :: IsLower(w[i])
  }

  function Index(c: char): (i: nat)
    requires IsLower(c)
    ensures i < 26
  {
    c as int - 'a' as int
  }

  /** The children of every node, by the prefix that leads to the node. */
  type Kids = map<string, seq<Trie?>>

  ghost predicate ChildRight(nodes: map<string, Trie>, kids: Kids, p: string, c: char)
    requires p in kids && |kids[p]| == 26 && IsLower(c)
  {
    kids[p][Index(c)] == if p + [c] in nodes then nodes[p + [c]] else null
  }

  ghost predicate ParentIn(nodes: map<string, Trie>, p: string) {
    p == "" || p[..|p| - 1] in nodes
  }

  /** The nodes form a tree without sharing, each reached by spelling its prefix. */
  ghost predicate TreeShaped(root: Trie, nodes: map<string, Trie>, kids: Kids) {
    && kids.Keys == nodes.Keys
    && "" in nodes && nodes[""] == root
    && (forall p, q | p in nodes && q in nodes && nodes[p] == nodes[q] :: p == q)
    && (forall p | p in nodes :: Lowercase(p) && |kids[p]| == 26)
    && (forall p {:trigger ParentIn(nodes, p)} | p in nodes :: ParentIn(nodes, p))
    && (forall p, c {:trigger ChildRight(nodes, kids, p, c)} | p in nodes && IsLower(c) :: ChildRight(nodes, kids, p, c))
  }

  lemma NoSharing(root: Trie, nodes: map<string, Trie>, kids: Kids, here: string)
    requires TreeShaped(root, nodes, kids) && here in nodes
    ensures forall p | p in nodes && p != here :: nodes[p] != nodes[here]
    ensures kids.Keys == nodes.Keys && |kids[here]| == 26
  {
  }

  /** Hanging a new leaf below the node of here keeps the tree. */
  lemma GrowKeepsTree(root: Trie, nodes: map<string, Trie>, kids: Kids, here: string, c: char, child: Trie)
    requires TreeShaped(root, nodes, kids)
    requires here in nodes && IsLower(c) && here + [c] !in nodes && child !in nodes.Values
    ensures TreeShaped(root, nodes[here + [c] := child],
                       kids[here := kids[here][Index(c) := child]][here + [c] := seq(26, _ => null)])
  {
    var next := here + [c];
    var nodes' := nodes[next := child];
    var kids' := kids[here := kids[here][Index(c) := child]][next := seq(26, _ => null)];
    assert next[..|next| - 1] == here;
    forall p | p in nodes' ensures ParentIn(nodes', p) {
      assert p in nodes ==> ParentIn(nodes, p);
    }
    forall p, d | p in nodes' && IsLower(d) ensures ChildRight(nodes', kids', p, d) {
      assert p in nodes ==> ChildRight(nodes, kids, p, d);
      assert next + [d] in nodes ==> ParentIn(nodes, next + [d]);
      assert (next + [d])[..|next|] == next;
      GrownChild(nodes, kids, here, c, child, p, d);
    }
    forall p, q | p in nodes' && q in nodes' && nodes'[p] == nodes'[q] ensures p == q {
      assert p in nodes ==> nodes[p] in nodes.Values;
      assert q in nodes ==> nodes[q] in nodes.Values;
    }
  }

  lemma GrownChild(
    nodes: map<string, Trie>, kids: Kids, here: string, c: char, child: Trie, p: string, d: char)
    requires kids.Keys == nodes.Keys && here in nodes && IsLower(c) && IsLower(d) && here + [c] !in nodes
    requires forall q | q in nodes :: |kids[q]| == 26
    requires here + [c] + [d] !in nodes
    requires p in nodes ==> ChildRight(nodes, kids, p, d)
    requires p in nodes || p == here + [c]
    ensures ChildRight(nodes[here + [c] := child],
                       kids[here := kids[here][Index(c) := child]][here + [c] := seq(26, _ => null)], p, d)
  {
    var next := here + [c];
    if p == here {
      if d != c {
        assert Index(d) != Index(c);
        assert (here + [d])[|here|] != next[|here|];
      }
    } else if p != next {
      assert (p + [d])[..|p|] == p && next[..|here|] == here;
    }
  }

  class Trie {
    var children: seq<Trie?>
    var isEnd: bool
    ghost var nodes: map<string, Trie>

    constructor ()
      ensures children == seq(26, _ => null) && !isEnd && nodes == map["" := this]
      ensures Valid() && Words() == {}
    {
      children := seq(26, _ => null);
      isEnd := false;
      nodes := map[];
      new;
      nodes := map["" := this];
    }

    ghost function ChildLists(): Kids
      reads this, nodes.Values
    {
      map p | p in nodes :: nodes[p].children
    }

    ghost predicate Shaped()
      reads this, nodes.Values
    {
      TreeShaped(this, nodes, ChildLists())
    }

    /** The inserted words. */
    ghost function Words(): set<string>
      reads this, nodes.Values
    {
      set p | p in nodes && nodes[p].isEnd
    }

    /** Beyond the root, every node lies on the way to a word. */
    ghost predicate Valid()
      reads this, nodes.Values
    {
      && Shaped()
      && forall p | p in nodes && p != "" :: LeadsTo(p, Words())
    }

    method SearchPrefix(prefix: string) returns (r: Trie?)
      requires Shaped() && Lowercase(prefix)
      ensures r == null <==> prefix !in nodes
      ensures r != null ==> r == nodes[prefix]
    {
      var node := this;
      assert prefix[..0] == "";
      for i := 0 to |prefix|
        invariant prefix[..i] in nodes && node == nodes[prefix[..i]]
      {
        var index := Index(prefix[i]);
        assert prefix[..i + 1] == prefix[..i] + [prefix[i]];
        assert ChildRight(nodes, ChildLists(), prefix[..i], prefix[i]);
        if node.children[index] == null {
          if prefix in nodes {
            PrefixIn(this, nodes, ChildLists(), prefix, i + 1);
          }
          return null;
        }
        node := node.children[index];
      }
      assert prefix[..|prefix|] == prefix;
      return node;
    }

    method Search(word: string) returns (found: bool)
      requires Valid() && Lowercase(word)
      ensures found <==> word in Words()
    {
      var node := SearchPrefix(word);
      found := node != null && node.isEnd;
    }

    lemma NodesArePrefixes(prefix: string)
      requires Valid()
      ensures Shaped()
      ensures prefix in nodes <==> prefix == "" || LeadsTo(prefix, Words())
    {
      if w :| w in Words() && prefix <= w {
        assert w in nodes;
        PrefixIn(this, nodes, ChildLists(), w, |prefix|);
        assert w[..|prefix|] == prefix;
      }
    }

    method StartWith(prefix: string) returns (found: bool)
      requires Valid() && Lowercase(prefix)
      ensures found <==> prefix == "" || LeadsTo(prefix, Words())
    {
      hide Valid, LeadsTo, Shaped;
      NodesArePrefixes(prefix);
      var node := SearchPrefix(prefix);
      found := node != null;
    }

    /** Hangs an unused childless node below node, which spells here. */
    method Attach(node: Trie, ghost here: string, c: char, child: Trie)
      requires Shaped() && IsLower(c) && here in nodes && node == nodes[here] && here + [c] !in nodes
      requires child !in nodes.Values && child.children == seq(26, _ => null)
      modifies this`nodes, node`children
      ensures Shaped() && nodes == old(nodes)[here + [c] := child]
      ensures |node.children| == 26 && node.children[Index(c)] == child
    {
      hide TreeShaped;
      ghost var kids := ChildLists();
      NoSharing(this, nodes, kids, here);
      GrowKeepsTree(this, nodes, kids, here, c, child);
      node.children := node.children[Index(c) := child];
      nodes := nodes[here + [c] := child];
      ghost var kids' := kids[here := kids[here][Index(c) := child]][here + [c] := seq(26, _ => null)];
      assert forall p | p in nodes :: nodes[p].children == kids'[p];
      assert ChildLists() == kids';
    }

    /** Walks down along word, adding the nodes that are missing. */
    method Descend(word: string) returns (node: Trie)
      requires Shaped() && Lowercase(word)
      modifies this, nodes.Values
      ensures Shaped() && word in nodes && node == nodes[word]
      ensures old(nodes.Keys) <= nodes.Keys && fresh(nodes.Values - old(nodes.Values))
      ensures forall p | p in nodes && p !in old(nodes) :: p <= word && !nodes[p].isEnd
      ensures forall p | p in old(nodes) :: nodes[p] == old(nodes[p]) && nodes[p].isEnd == old(nodes[p].isEnd)
    {
      hide TreeShaped, Lowercase, ChildRight, ParentIn, Words;
      node := this;
      assert word[..0] == "";
      RootIn(this, nodes, ChildLists());
      for i := 0 to |word|
        invariant Shaped() && old(nodes.Keys) <= nodes.Keys
        invariant word[..i] in nodes && node == nodes[word[..i]]
        invariant fresh(nodes.Values - old(nodes.Values))
        invariant forall p | p in nodes && p !in old(nodes) :: p <= word && !nodes[p].isEnd
        invariant forall p | p in old(nodes) :: nodes[p] == old(nodes[p]) && nodes[p].isEnd == old(nodes[p].isEnd)
      {
        ghost var here := word[..i];
        assert word[..i + 1] == here + [word[i]];
        LowercaseAt(word, i);
        var index := Index(word[i]);
        ChildOf(this, nodes, ChildLists(), here, word[i]);
        if node.children[index] == null {
          var child := new Trie();
          Attach(node, here, word[i], child);
        }
        node := node.children[index];
      }
      assert word[..|word|] == word;
    }

    method Insert(word: string)
      requires Valid() && Lowercase(word)
      modifies this, nodes.Values
      ensures Valid() && Words() == old(Words()) + {word}
      ensures fresh(nodes.Values - old(nodes.Values))
    {
      hide TreeShaped, LeadsTo, Lowercase, ChildRight, ParentIn;
      var node := Descend(word);
      ghost var kids := ChildLists();
      NoSharing(this, nodes, kids, word);
      node.isEnd := true;
      assert ChildLists() == kids;
      assert Words() == old(Words()) + {word};
      forall p | p in nodes && p != "" ensures LeadsTo(p, Words()) {
        if p in old(nodes) {
          LeadsToMore(p, old(Words()), word);
        } else {
          LeadsToWord(p, Words(), word);
        }
      }
    }

    /** After any inserts into a fresh trie, exactly the given words are in it. */
    method InsertAll(words: seq<string>)
      requires Valid() && forall i | 0 <= i < |words| :: Lowercase(words[i])
      modifies this, nodes.Values
      ensures Valid() && Words() == old(Words()) + (set w | w in words)
    {
      hide Valid, Words, Shaped, Lowercase;
      assert (set w | w in words[..0]) == {};
      for i := 0 to |words|
        invariant Valid() && Words() == old(Words()) + (set w | w in words[..i])
        invariant fresh(nodes.Values - old(nodes.Values))
      {
        Insert(words[i]);
        assert words[..i + 1] == words[..i] + [words[i]];
      }
      assert words[..|words|] == words;
    }
  }

  lemma LeadsToMore(p: string, words: set<string>, word: string)
    requires LeadsTo(p, words)
    ensures LeadsTo(p, words + {word})
  {
    var w :| w in words && p <= w;
    assert w in words + {word};
  }

  lemma LeadsToWord(p: string, words: set<string>, word: string)
    requires word in words && p <= word
    ensures LeadsTo(p, words)
  {
  }

  lemma RootIn(root: Trie, nodes: map<string, Trie>, kids: Kids)
    requires TreeShaped(root, nodes, kids)
    ensures "" in nodes && nodes[""] == root
  {
  }

  lemma ChildOf(root: Trie, nodes: map<string, Trie>, kids: Kids, p: string, c: char)
    requires TreeShaped(root, nodes, kids) && p in nodes && IsLower(c)
    ensures p in kids && |kids[p]| == 26
    ensures kids[p][Index(c)] == if p + [c] in nodes then nodes[p + [c]] else null
  {
    assert ChildRight(nodes, kids, p, c);
  }

  lemma LowercaseAt(w: string, i: nat)
    requires Lowercase(w) && i < |w|
    ensures IsLower(w[i])
  {
  }

  /** p is a prefix of one of the words. */
  ghost predicate LeadsTo(p: string, words: set<string>) {
    exists w :: w in words && p <= w
  }

  lemma {:induction false} PrefixIn(root: Trie, nodes: map<string, Trie>, kids: Kids, p: string, i: nat)
    requires TreeShaped(root, nodes, kids) && p in nodes && i <= |p|
    ensures p[..i] in nodes
    decreases |p|
  {
    if i == |p| {
      assert p[..i] == p;
    } else {
      assert ParentIn(nodes, p);
      PrefixIn(root, nodes, kids, p[..|p| - 1], i);
      assert p[..|p| - 1][..i] == p[..i];
    }
  }
}
