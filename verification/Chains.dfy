/** The chain of an image: its top layer, that layer's parent, and so on until a parent is "".
    A layer that is not in the table counts as having no parent. */
module Chains {
  import opened Layers

  function ParentOf(forest: Forest, id: Id): Id {
    if id in forest then forest[id] else ""
  }

  ghost predicate IsChain(forest: Forest, top: Id, chain: seq<Id>)
    decreases |chain|
  {
    if top == "" then chain == []
    else chain != [] && chain[0] == top && IsChain(forest, ParentOf(forest, top), chain[1..])
  }

  /** Walking up from `top` comes to an end. */
  ghost predicate Rooted(forest: Forest, top: Id) {
    exists chain :: IsChain(forest, top, chain)
  }

  ghost function ChainOf(forest: Forest, top: Id): (chain: seq<Id>)
    requires Rooted(forest, top)
    ensures IsChain(forest, top, chain)
  {
    var chain :| IsChain(forest, top, chain);
    chain
  }

  lemma {:induction false} ChainUnique(forest: Forest, top: Id, a: seq<Id>, b: seq<Id>)
    requires IsChain(forest, top, a) && IsChain(forest, top, b)
    ensures a == b
    decreases |a|
  {
    if top != "" {
      ChainUnique(forest, ParentOf(forest, top), a[1..], b[1..]);
      assert a == [top] + a[1..] && b == [top] + b[1..];
    }
  }

  lemma {:induction false} ChainSuffix(forest: Forest, top: Id, chain: seq<Id>, i: nat)
    requires IsChain(forest, top, chain) && i < |chain|
    ensures chain[i] != "" && IsChain(forest, chain[i], chain[i..])
    ensures i + 1 < |chain| ==> chain[i] in forest && forest[chain[i]] == chain[i + 1]
    ensures i + 1 == |chain| ==> ParentOf(forest, chain[i]) == ""
    decreases i
  {
    if i == 0 {
      assert chain[0..] == chain;
    } else {
      ChainSuffix(forest, ParentOf(forest, top), chain[1..], i - 1);
      assert chain[1..][i - 1..] == chain[i..];
    }
  }

  /** A chain that comes to an end visits no layer twice. */
  lemma ChainDistinct(forest: Forest, top: Id, chain: seq<Id>, i: nat, j: nat)
    requires IsChain(forest, top, chain) && i < j < |chain|
    ensures chain[i] != chain[j]
  {
    ChainSuffix(forest, top, chain, i);
    ChainSuffix(forest, top, chain, j);
    if chain[i] == chain[j] {
      ChainUnique(forest, chain[i], chain[i..], chain[j..]);
    }
  }

  /** The layers of a chain that exist in `before` exist, with the same parents, in `after`. */
  ghost predicate Kept(before: Forest, after: Forest, chain: seq<Id>) {
    forall l :: l in chain && l in before ==> l in after && after[l] == before[l]
  }

  /** A chain whose layers are all still there is still the chain. */
  lemma {:induction false} ChainStable(before: Forest, after: Forest, top: Id, chain: seq<Id>)
    requires IsChain(before, top, chain)
    requires after.Keys <= before.Keys && Kept(before, after, chain)
    ensures IsChain(after, top, chain)
    decreases |chain|
  {
    if top != "" {
      ChainStable(before, after, ParentOf(before, top), chain[1..]);
    }
  }

  /** Below its top, every layer of a chain carries the layer before it. */
  lemma ChainChild(forest: Forest, top: Id, chain: seq<Id>, l: Id)
    requires IsChain(forest, top, chain) && l in chain && l != top
    ensures exists c :: c in Children(forest, l) && c in chain
    ensures l != ""
  {
    var i :| 0 <= i < |chain| && chain[i] == l;
    ChainSuffix(forest, top, chain, i);
    if i > 0 {
      ChainSuffix(forest, top, chain, i - 1);
      assert chain[i - 1] in Children(forest, l);
    }
  }

  /** No layer of a chain is removable while its top is blocked. */
  lemma {:induction false} BlockedChainStays(forest: Forest, blocked: set<Id>, top: Id, chain: seq<Id>, i: nat)
    requires IsChain(forest, top, chain) && top in blocked && i < |chain|
    ensures !Removable(forest, blocked, chain[i])
  {
    if Removable(forest, blocked, chain[i]) {
      RemovableDown(forest, blocked, chain[i]);
      if i > 0 {
        ChainSuffix(forest, top, chain, i - 1);
        assert chain[i - 1] in Children(forest, chain[i]);
        BlockedChainStays(forest, blocked, top, chain, i - 1);
      }
    }
  }
}
