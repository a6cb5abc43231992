/** Layers as the store reports them: a finite table from a layer's ID to the ID of its
    parent. A parent that is not itself in the table (in particular "") makes a root. */
module Layers {
  import opened Slices

  type Id = string

  type Forest = map<Id, Id>

  function Children(forest: Forest, id: Id): set<Id> {
    set c | c in forest && forest[c] == id
  }

  /** A chain that can be taken down from its childless end: every member is free to go, and
      the only child of a member is the member before it. */
  ghost predicate BareChain(forest: Forest, blocked: set<Id>, chain: seq<Id>) {
    chain != [] && forall i :: 0 <= i < |chain| ==> BareLink(forest, blocked, chain, i)
  }

  ghost predicate BareLink(forest: Forest, blocked: set<Id>, chain: seq<Id>, i: nat)
    requires i < |chain|
  {
    && chain[i] in forest
    && chain[i] !in blocked
    && Children(forest, chain[i]) == if i == 0 then {} else {chain[i - 1]}
  }

  ghost predicate TopOf(forest: Forest, blocked: set<Id>, chain: seq<Id>, id: Id) {
    BareChain(forest, blocked, chain) && chain[|chain| - 1] == id
  }

  /** `id` and everything that was ever built on it form one bare chain. */
  ghost predicate Removable(forest: Forest, blocked: set<Id>, id: Id) {
    exists chain :: TopOf(forest, blocked, chain, id)
  }

  lemma BareChainPrefix(forest: Forest, blocked: set<Id>, chain: seq<Id>)
    requires BareChain(forest, blocked, chain) && |chain| > 1
    ensures BareChain(forest, blocked, chain[..|chain| - 1])
  {
    var shorter := chain[..|chain| - 1];
    forall i | 0 <= i < |shorter|
      ensures BareLink(forest, blocked, shorter, i)
    {
      assert BareLink(forest, blocked, chain, i);
    }
  }

  lemma RemovableUp(forest: Forest, blocked: set<Id>, below: Id, id: Id)
    requires Removable(forest, blocked, below)
    requires id in forest && id !in blocked && Children(forest, id) == {below}
    ensures Removable(forest, blocked, id)
  {
    var chain :| TopOf(forest, blocked, chain, below);
    var longer := chain + [id];
    assert forall i :: 0 <= i < |chain| ==> BareLink(forest, blocked, chain, i) ==>
      BareLink(forest, blocked, longer, i);
    assert TopOf(forest, blocked, longer, id);
  }

  lemma RemovableLeaf(forest: Forest, blocked: set<Id>, id: Id)
    requires id in forest && id !in blocked && Children(forest, id) == {}
    ensures Removable(forest, blocked, id)
  {
    assert TopOf(forest, blocked, [id], id);
  }

  lemma RemovableDown(forest: Forest, blocked: set<Id>, id: Id)
    requires Removable(forest, blocked, id)
    ensures id in forest && id !in blocked
    ensures forall c :: c in Children(forest, id) ==> Children(forest, id) == {c} && Removable(forest, blocked, c)
  {
    var chain :| TopOf(forest, blocked, chain, id);
    var n := |chain|;
    assert BareLink(forest, blocked, chain, n - 1);
    if n > 1 {
      BareChainPrefix(forest, blocked, chain);
      assert TopOf(forest, blocked, chain[..n - 1], chain[n - 2]);
    }
  }

  /** A removable layer sits on a childless layer from which parents lead up to it: a set that
      holds the childless free layers and is closed under free parents holds it too. */
  lemma {:induction false} RemovableReached(forest: Forest, blocked: set<Id>, chain: seq<Id>, seen: set<Id>)
    requires BareChain(forest, blocked, chain)
    requires forall x :: x in forest && x !in blocked && Children(forest, x) == {} ==> x in seen
    requires forall x :: x in seen && x in forest && forest[x] in forest && forest[x] !in blocked ==> forest[x] in seen
    ensures chain[|chain| - 1] in seen
  {
    var n := |chain|;
    assert BareLink(forest, blocked, chain, n - 1);
    if n > 1 {
      BareChainPrefix(forest, blocked, chain);
      RemovableReached(forest, blocked, chain[..n - 1], seen);
      assert chain[n - 2] in Children(forest, chain[n - 1]);
    }
  }

  /** `height` witnesses that parents never lead back: a parent is higher than its children. */
  ghost predicate Acyclic(forest: Forest, height: map<Id, nat>) {
    && forest.Keys <= height.Keys
    && forall x :: x in forest && forest[x] in forest ==> height[x] < height[forest[x]]
  }

  /** The path leads over parents from its first layer to its last. */
  ghost predicate IsPath(forest: Forest, path: seq<Id>) {
    && path != []
    && (forall i :: 0 <= i < |path| ==> path[i] in forest)
    && forall i :: 0 < i < |path| ==> forest[path[i - 1]] == path[i]
  }

  ghost predicate PathBetween(forest: Forest, path: seq<Id>, from: Id, to: Id) {
    IsPath(forest, path) && path[0] == from && path[|path| - 1] == to
  }

  /** `y` is `x` or was built, directly or not, on `x`. */
  ghost predicate InSubtree(forest: Forest, x: Id, y: Id) {
    exists path :: PathBetween(forest, path, y, x)
  }

  /** No layer at or above `x` is blocked or carries two layers. */
  ghost predicate PlainSubtree(forest: Forest, blocked: set<Id>, x: Id) {
    x in forest && forall y :: InSubtree(forest, x, y) ==> y !in blocked && |Children(forest, y)| <= 1
  }

  lemma {:induction false} RemovablePlain(forest: Forest, blocked: set<Id>, x: Id, path: seq<Id>)
    requires Removable(forest, blocked, x)
    requires IsPath(forest, path) && path[|path| - 1] == x
    ensures Removable(forest, blocked, path[0])
    decreases |path|
  {
    var n := |path|;
    if n > 1 {
      RemovableDown(forest, blocked, x);
      assert path[n - 2] in Children(forest, x);
      RemovablePlain(forest, blocked, path[n - 2], path[..n - 1]);
    }
  }

  lemma {:induction false} PlainRemovable(forest: Forest, height: map<Id, nat>, blocked: set<Id>, x: Id)
    requires Acyclic(forest, height)
    requires PlainSubtree(forest, blocked, x)
    ensures Removable(forest, blocked, x)
    decreases height[x]
  {
    assert PathBetween(forest, [x], x, x);
    if Children(forest, x) == {} {
      RemovableLeaf(forest, blocked, x);
    } else {
      var c :| c in Children(forest, x);
      assert Children(forest, x) == {c} by {
        assert |Children(forest, x) - {c}| == 0;
      }
      forall y | InSubtree(forest, c, y)
        ensures InSubtree(forest, x, y)
      {
        var path :| PathBetween(forest, path, y, c);
        assert PathBetween(forest, path + [x], y, x);
      }
      PlainRemovable(forest, height, blocked, c);
      RemovableUp(forest, blocked, c, x);
    }
  }

  /** On an acyclic forest the removable layers are those whose subtree is free and unforked. */
  lemma RemovableIffPlain(forest: Forest, height: map<Id, nat>, blocked: set<Id>, x: Id)
    requires Acyclic(forest, height)
    ensures Removable(forest, blocked, x) <==> PlainSubtree(forest, blocked, x)
  {
    if Removable(forest, blocked, x) {
      RemovableDown(forest, blocked, x);
      forall y | InSubtree(forest, x, y)
        ensures y !in blocked && |Children(forest, y)| <= 1
      {
        var path :| PathBetween(forest, path, y, x);
        RemovablePlain(forest, blocked, x, path);
        RemovableDown(forest, blocked, y);
        if c :| c in Children(forest, y) {
          assert Children(forest, y) == {c};
        }
      }
    }
    if PlainSubtree(forest, blocked, x) {
      PlainRemovable(forest, height, blocked, x);
    }
  }

  /** What one sweep leaves. */
  ghost function SweptOnce(forest: Forest, blocked: set<Id>): Forest {
    map x | x in forest && !Removable(forest, blocked, x) :: forest[x]
  }

  /** Nothing free carries two layers or a blocked one. */
  ghost predicate FreeChains(forest: Forest, blocked: set<Id>) {
    forall x :: x in forest && x !in blocked ==> |Children(forest, x)| <= 1 && Children(forest, x) !! blocked
  }

  lemma {:induction false} FreeChainGoes(forest: Forest, height: map<Id, nat>, blocked: set<Id>, x: Id)
    requires Acyclic(forest, height) && FreeChains(forest, blocked) && x in forest && x !in blocked
    ensures Removable(forest, blocked, x)
    decreases height[x]
  {
    if c :| c in Children(forest, x) {
      assert Children(forest, x) == {c} by {
        assert |Children(forest, x) - {c}| == 0;
      }
      FreeChainGoes(forest, height, blocked, c);
      RemovableUp(forest, blocked, c, x);
    } else {
      RemovableLeaf(forest, blocked, x);
    }
  }

  /** One sweep takes everything that is free exactly if the free layers form chains with nothing
      blocked on them. */
  lemma AllGoIff(forest: Forest, height: map<Id, nat>, blocked: set<Id>)
    requires Acyclic(forest, height)
    ensures SweptOnce(forest, blocked).Keys == forest.Keys * blocked <==> FreeChains(forest, blocked)
  {
    forall x | x in forest && Removable(forest, blocked, x)
      ensures x !in blocked && |Children(forest, x)| <= 1 && Children(forest, x) !! blocked
    {
      RemovableDown(forest, blocked, x);
      if c :| c in Children(forest, x) {
        assert Children(forest, x) == {c};
        RemovableDown(forest, blocked, c);
      }
    }
    if SweptOnce(forest, blocked).Keys == forest.Keys * blocked {
      forall x | x in forest && x !in blocked
        ensures Removable(forest, blocked, x)
      {
        assert x !in SweptOnce(forest, blocked).Keys;
      }
    }
    if FreeChains(forest, blocked) {
      forall x | x in forest && x !in blocked {
        FreeChainGoes(forest, height, blocked, x);
      }
    }
  }

  ghost function SweptTimes(forest: Forest, blocked: set<Id>, n: nat): Forest
    decreases n
  {
    if n == 0 then forest else SweptTimes(SweptOnce(forest, blocked), blocked, n - 1)
  }

  ghost predicate Needed(forest: Forest, blocked: set<Id>, x: Id) {
    exists y :: y in blocked && InSubtree(forest, x, y)
  }

  ghost function NeededLayers(forest: Forest, blocked: set<Id>): set<Id> {
    set x | x in forest && Needed(forest, blocked, x)
  }

  /** A sweep takes no layer that a blocked layer is built on. */
  lemma NeededKept(forest: Forest, blocked: set<Id>, x: Id)
    requires Needed(forest, blocked, x)
    ensures x in SweptOnce(forest, blocked) && Needed(SweptOnce(forest, blocked), blocked, x)
  {
    var y :| y in blocked && InSubtree(forest, x, y);
    var path :| PathBetween(forest, path, y, x);
    forall i | 0 <= i < |path|
      ensures !Removable(forest, blocked, path[i])
    {
      if Removable(forest, blocked, path[i]) {
        RemovablePlain(forest, blocked, path[i], path[..i + 1]);
        RemovableDown(forest, blocked, y);
      }
    }
    assert PathBetween(SweptOnce(forest, blocked), path, y, x);
    assert InSubtree(SweptOnce(forest, blocked), x, y);
  }

  lemma NeededBefore(forest: Forest, smaller: Forest, blocked: set<Id>, x: Id)
    requires smaller.Keys <= forest.Keys && forall y :: y in smaller ==> smaller[y] == forest[y]
    requires Needed(smaller, blocked, x)
    ensures Needed(forest, blocked, x)
  {
    var y :| y in blocked && InSubtree(smaller, x, y);
    var path :| PathBetween(smaller, path, y, x);
    assert PathBetween(forest, path, y, x);
    assert InSubtree(forest, x, y);
  }

  /** As long as some layer is needed by no blocked one, a sweep takes at least one layer. */
  lemma {:induction false} SweepProgress(forest: Forest, height: map<Id, nat>, blocked: set<Id>, x: Id)
    requires Acyclic(forest, height)
    requires x in forest && !Needed(forest, blocked, x)
    ensures exists y :: y in forest && Removable(forest, blocked, y)
    decreases height[x]
  {
    assert PathBetween(forest, [x], x, x);
    assert InSubtree(forest, x, x);
    if c :| c in Children(forest, x) {
      if Needed(forest, blocked, c) {
        var y :| y in blocked && InSubtree(forest, c, y);
        var path :| PathBetween(forest, path, y, c);
        assert PathBetween(forest, path + [x], y, x);
        assert InSubtree(forest, x, y);
      }
      SweepProgress(forest, height, blocked, c);
    } else {
      RemovableLeaf(forest, blocked, x);
    }
  }

  /** A sweep that has something to take leaves a smaller forest with the same layers needed. */
  lemma SweepShrinks(forest: Forest, height: map<Id, nat>, blocked: set<Id>, y: Id)
    requires Acyclic(forest, height) && y in forest && Removable(forest, blocked, y)
    ensures var next := SweptOnce(forest, blocked);
      Acyclic(next, height) && |next| < |forest| && NeededLayers(next, blocked) == NeededLayers(forest, blocked)
  {
    var next := SweptOnce(forest, blocked);
    assert next.Keys <= forest.Keys - {y};
    SubsetSize(next.Keys, forest.Keys - {y});
    forall x | x in forest && Needed(forest, blocked, x)
      ensures x in next && Needed(next, blocked, x)
    {
      NeededKept(forest, blocked, x);
    }
    forall x | x in next && Needed(next, blocked, x)
      ensures Needed(forest, blocked, x)
    {
      NeededBefore(forest, next, blocked, x);
    }
  }

  /** One that has nothing to take leaves only needed layers. */
  lemma SweepDone(forest: Forest, height: map<Id, nat>, blocked: set<Id>)
    requires Acyclic(forest, height) && forall y :: y in forest ==> !Removable(forest, blocked, y)
    ensures SweptOnce(forest, blocked) == forest && NeededLayers(forest, blocked) == forest.Keys
  {
    forall x | x in forest
      ensures Needed(forest, blocked, x)
    {
      if !Needed(forest, blocked, x) {
        SweepProgress(forest, height, blocked, x);
      }
    }
  }

  /** One sweep stops below every fork, so it need not clear everything; sweeping as often as
      there are layers leaves exactly the layers that blocked ones are built on. */
  lemma {:induction false} SweepsConverge(forest: Forest, height: map<Id, nat>, blocked: set<Id>, n: nat)
    requires Acyclic(forest, height) && n >= |forest|
    ensures SweptTimes(forest, blocked, n).Keys == NeededLayers(forest, blocked)
    decreases n
  {
    if n == 0 {
      assert forest == map[];
    } else if y :| y in forest && Removable(forest, blocked, y) {
      SweepShrinks(forest, height, blocked, y);
      SweepsConverge(SweptOnce(forest, blocked), height, blocked, n - 1);
    } else {
      SweepDone(forest, height, blocked);
      SweptIdle(forest, blocked, n);
    }
  }

  lemma NeededUnder(forest: Forest, uses: set<Id>, x: Id, y: Id)
    requires InSubtree(forest, x, y) && Needed(forest, uses, y)
    ensures Needed(forest, uses, x)
  {
    var path :| PathBetween(forest, path, y, x);
    var u :| u in uses && InSubtree(forest, y, u);
    var first :| PathBetween(forest, first, u, y);
    var whole := first + path[1..];
    assert PathBetween(forest, whole, u, x);
  }

  /** One sweep leaves just the layers that used ones are built on, exactly if no other layer is
      protected or carries two layers. */
  lemma OnlyNeededIff(forest: Forest, height: map<Id, nat>, cached: set<Id>, uses: set<Id>)
    requires Acyclic(forest, height)
    ensures SweptOnce(forest, cached + uses).Keys == NeededLayers(forest, uses) <==>
            forall x :: x in forest && !Needed(forest, uses, x) ==> x !in cached && |Children(forest, x)| <= 1
  {
    var blocked := cached + uses;
    forall x | x in forest && Needed(forest, uses, x)
      ensures x in SweptOnce(forest, blocked)
    {
      var y :| y in uses && InSubtree(forest, x, y);
      assert y in blocked;
      NeededKept(forest, blocked, x);
    }
    if SweptOnce(forest, blocked).Keys == NeededLayers(forest, uses) {
      forall x | x in forest && !Needed(forest, uses, x)
        ensures x !in cached && |Children(forest, x)| <= 1
      {
        assert x !in SweptOnce(forest, blocked).Keys;
        RemovableIffPlain(forest, height, blocked, x);
        assert PathBetween(forest, [x], x, x);
        assert InSubtree(forest, x, x);
      }
    }
    if forall x :: x in forest && !Needed(forest, uses, x) ==> x !in cached && |Children(forest, x)| <= 1 {
      forall x | x in forest && !Needed(forest, uses, x)
        ensures Removable(forest, blocked, x)
      {
        UnneededPlain(forest, cached, uses, x);
        PlainRemovable(forest, height, blocked, x);
      }
    }
  }

  lemma UnneededPlain(forest: Forest, cached: set<Id>, uses: set<Id>, x: Id)
    requires x in forest && !Needed(forest, uses, x)
    requires forall y :: y in forest && !Needed(forest, uses, y) ==> y !in cached && |Children(forest, y)| <= 1
    ensures PlainSubtree(forest, cached + uses, x)
  {
    forall y | InSubtree(forest, x, y)
      ensures y !in cached + uses && |Children(forest, y)| <= 1
    {
      if Needed(forest, uses, y) {
        NeededUnder(forest, uses, x, y);
      }
      assert PathBetween(forest, [y], y, y) by {
        var path :| PathBetween(forest, path, y, x);
      }
      assert InSubtree(forest, y, y);
    }
  }

  /** A layer that stays keeps its parent. */
  ghost predicate ParentsStay(before: Forest, after: Forest) {
    && after.Keys <= before.Keys
    && forall y :: y in after ==> after[y] == before[y] && (before[y] in before ==> before[y] in after)
  }

  lemma {:induction false} PathStays(before: Forest, after: Forest, path: seq<Id>)
    requires ParentsStay(before, after) && IsPath(before, path) && path[0] in after
    ensures IsPath(after, path)
  {
    var n := |path|;
    if n > 1 {
      PathStays(before, after, path[..n - 1]);
      assert before[path[n - 2]] == path[n - 1];
    }
  }

  /** If layers that stay keep their parents, those that stay need what they needed before. */
  lemma NeededStays(before: Forest, after: Forest, uses: set<Id>)
    requires ParentsStay(before, after)
    ensures NeededLayers(after, uses) == NeededLayers(before, uses * after.Keys)
    ensures forall x :: x in after ==> (Needed(after, uses, x) <==> Needed(before, uses * after.Keys, x))
  {
    forall x | x in after && Needed(after, uses, x)
      ensures Needed(before, uses * after.Keys, x)
    {
      var y :| y in uses && InSubtree(after, x, y);
      var path :| PathBetween(after, path, y, x);
      assert y in after && PathBetween(before, path, y, x);
      assert InSubtree(before, x, y);
    }
    forall x | Needed(before, uses * after.Keys, x)
      ensures x in after && Needed(after, uses, x)
    {
      var y :| y in uses * after.Keys && InSubtree(before, x, y);
      var path :| PathBetween(before, path, y, x);
      PathStays(before, after, path);
      assert PathBetween(after, path, y, x);
      assert InSubtree(after, x, y);
    }
  }

  lemma {:induction false} SweptIdle(forest: Forest, blocked: set<Id>, n: nat)
    requires SweptOnce(forest, blocked) == forest
    ensures SweptTimes(forest, blocked, n) == forest
  {
    if n > 0 {
      SweptIdle(forest, blocked, n - 1);
    }
  }
}
