/** What a pass leaves: when nothing but what images and containers need. */
module Leaks {
  import opened Layers
  import opened Chains
  import opened Protection
  import opened Integrity
  import opened Slices
  import opened Strays

  /** No layer is built on one that a container writes to. */
  ghost predicate Bare(t: Tables) {
    forall c :: c in t.containers ==> Children(t.layers, t.containers[c].layerID) == {}
  }

  lemma WithoutContainersParents(t: Tables, id: Id)
    requires Bare(t)
    ensures ParentsStay(t.layers, WithoutContainersOf(t, id).layers) && Bare(WithoutContainersOf(t, id))
  {
    var t' := WithoutContainersOf(t, id);
    forall y | y in t'.layers && t.layers[y] in t.layers
      ensures t.layers[y] in t'.layers
    {
      assert y in Children(t.layers, t.layers[y]);
    }
    BareStays(t, t');
  }

  lemma BareStays(t: Tables, t': Tables)
    requires Bare(t) && Submap(t'.layers, t.layers) && Submap(t'.containers, t.containers)
    ensures Bare(t')
  {
    forall c | c in t'.containers
      ensures Children(t'.layers, t'.containers[c].layerID) == {}
    {
      assert Children(t'.layers, t'.containers[c].layerID) <= Children(t.layers, t.containers[c].layerID);
    }
  }

  lemma ReleasedParents(t: Tables, id: Id)
    requires id in t.images && Rooted(t.layers, t.images[id].topLayer)
    ensures ParentsStay(t.layers, t.layers - Released(t, id))
  {
    var mapped, chain := t.images[id].mappedTopLayers, ChainOf(t.layers, t.images[id].topLayer);
    var stops := Stops(t.images, t.containers, id);
    var k := ReleasedFrom(t.layers, stops, mapped, chain, 0);
    forall y | y in t.layers && t.layers[y] in Released(t, id)
      ensures y in Released(t, id)
    {
      var p := t.layers[y];
      assert y in Children(t.layers, p);
      assert k > 0 && Releasable(t.layers, stops, mapped, chain, 0);
      var i :| 0 <= i < k && chain[i] == p;
      assert Releasable(t.layers, stops, mapped, chain, i);
      assert chain[i - 1] in chain[..k];
    }
  }

  lemma DropParents(t: Tables, id: Id)
    requires Bare(t)
    ensures ParentsStay(t.layers, Drop(t, id).layers) && Bare(Drop(t, id))
  {
    WithoutContainersParents(t, id);
    var t1 := WithoutContainersOf(t, id);
    if id in t1.images && Rooted(t1.layers, t1.images[id].topLayer) {
      ReleasedParents(t1, id);
      BareStays(t1, Drop(t, id));
    }
  }

  lemma {:induction false} DropAllParents(t: Tables, ids: seq<Id>)
    requires Bare(t)
    ensures ParentsStay(t.layers, DropAll(t, ids).layers) && Bare(DropAll(t, ids))
  {
    if ids != [] {
      DropAllParents(t, ids[..|ids| - 1]);
      DropParents(DropAll(t, ids[..|ids| - 1]), ids[|ids| - 1]);
    }
  }

  lemma {:induction false} WalkedParents(t: Tables, order: seq<Id>)
    requires Bare(t)
    ensures ParentsStay(t.layers, Walked(t, order).layers)
  {
    if order != [] {
      var before := Walked(t, order[..|order| - 1]);
      WalkedParents(t, order[..|order| - 1]);
      WalkedShrinks(t, order[..|order| - 1]);
      BareStays(t, before);
      forall y | y in before.layers && before.layers[y] in before.layers
        ensures y in Children(before.layers, before.layers[y])
      {
      }
    }
  }

  /** Whatever else happens, a layer is gone if in the old table no layer that is cached, used or
      cannot be unmounted is built on it, and no layer on it, itself included, carries two. */
  lemma PlainGarbageGoes(t0: Tables, t: Tables, env: Env, p: Pass, height: map<Id, nat>, x: Id)
    requires WellFormed(t0) && PassOutcome(t0, t, env, p) && Acyclic(t0.layers, height)
    requires PlainSubtree(t0.layers, p.cache + Uses(t) + env.unmountFails, x)
    ensures x !in t.layers
  {
    if x in p.unswept {
      var blocked := p.cache + Uses(t) + env.unmountFails;
      forall y | InSubtree(p.unswept, x, y)
        ensures y !in blocked && |Children(p.unswept, y)| <= 1
      {
        var path :| PathBetween(p.unswept, path, y, x);
        assert PathBetween(t0.layers, path, y, x);
        assert InSubtree(t0.layers, x, y);
        assert Children(p.unswept, y) <= Children(t0.layers, y);
        SubsetSize(Children(p.unswept, y), Children(t0.layers, y));
      }
      RemovableIffPlain(p.unswept, height, blocked, x);
    }
  }

  /** The tables before the sweep, when every deletion works. */
  ghost function BeforeSweep(t0: Tables, drops: seq<Id>, order: seq<Id>): Tables {
    Walked(DropAll(t0, drops), order)
  }

  /** The layers in use before the sweep. */
  ghost function InUse(t: Tables): set<Id> {
    Uses(t) * t.layers.Keys
  }

  /** Nothing in use is built on the layer, but it is cached or carries two layers. */
  ghost predicate Sticks(forest0: Forest, forest: Forest, inUse: set<Id>, cache: set<Id>, x: Id) {
    x in forest && !Needed(forest0, inUse, x) && (x in cache || |Children(forest, x)| > 1)
  }

  lemma SweptUses(t: Tables, t': Tables, blocked: set<Id>)
    requires t'.layers == SweptOnce(t.layers, blocked) && t'.images == t.images && t'.containers == t.containers
    requires Uses(t) <= blocked
    ensures InUse(t') == InUse(t)
  {
    forall x | x in Uses(t) && x in t.layers
      ensures x in t'.layers
    {
      if Removable(t.layers, blocked, x) {
        RemovableDown(t.layers, blocked, x);
      }
    }
  }

  lemma NeededLeftIff(forest0: Forest, forest: Forest, height: map<Id, nat>, cache: set<Id>, uses: set<Id>)
    requires ParentsStay(forest0, forest) && Acyclic(forest, height)
    ensures SweptOnce(forest, cache + uses).Keys == NeededLayers(forest0, uses * forest.Keys) <==>
            forall x :: !Sticks(forest0, forest, uses * forest.Keys, cache, x)
  {
    NeededStays(forest0, forest, uses);
    OnlyNeededIff(forest, height, cache, uses);
    forall x
      ensures !Sticks(forest0, forest, uses * forest.Keys, cache, x) <==>
              (x in forest && !Needed(forest, uses, x) ==> x !in cache && |Children(forest, x)| <= 1)
    {
    }
  }

  /** When every deletion works, the layers left are just those of the old table that layers in use
      are built on, exactly if before the sweep none of the others is cached and none carries two
      layers. All this can be computed from the old tables and the two orders. */
  lemma OnlyNeededLeftIff(t0: Tables, t: Tables, env: Env, p: Pass, height: map<Id, nat>)
    requires WellFormed(t0) && Bare(t0) && PassOutcome(t0, t, env, p) && AllWorks(env) && Acyclic(t0.layers, height)
    ensures var mid, cache := BeforeSweep(t0, p.drops, p.order), CacheAfter(t0, env, t0.images.Keys);
      && InUse(t) == InUse(mid)
      && (t.layers.Keys == NeededLayers(t0.layers, InUse(mid)) <==>
            forall x :: !Sticks(t0.layers, mid.layers, InUse(mid), cache, x))
  {
    var mid, cache := BeforeSweep(t0, p.drops, p.order), CacheAfter(t0, env, t0.images.Keys);
    assert mid == t.(layers := p.unswept) && p.cache == cache;
    assert cache + Uses(t) + env.unmountFails == cache + Uses(t);
    assert Uses(mid) == Uses(t) && Acyclic(mid.layers, height);
    DropAllParents(t0, p.drops);
    WalkedParents(p.mid, p.order);
    SweptUses(mid, t, cache + Uses(t));
    NeededLeftIff(t0.layers, mid.layers, height, cache, Uses(mid));
  }

  /** What sticks before the sweep sticks in the old table. */
  lemma StuckBefore(t0: Tables, t: Tables, env: Env, p: Pass, inUse: set<Id>, cache: set<Id>, x: Id)
    requires WellFormed(t0) && PassOutcome(t0, t, env, p)
    requires Sticks(t0.layers, p.unswept, inUse, cache, x)
    ensures Sticks(t0.layers, t0.layers, inUse, cache, x)
  {
    assert Children(p.unswept, x) <= Children(t0.layers, x);
    SubsetSize(Children(p.unswept, x), Children(t0.layers, x));
  }

  /** When nothing sticks in the old table, two orders that leave the same layers in use leave the
      same layers. */
  lemma SameLayersLeft(t0: Tables, t: Tables, t': Tables, env: Env, p: Pass, q: Pass, height: map<Id, nat>)
    requires WellFormed(t0) && Bare(t0) && AllWorks(env) && Acyclic(t0.layers, height)
    requires PassOutcome(t0, t, env, p) && PassOutcome(t0, t', env, q)
    requires InUse(BeforeSweep(t0, p.drops, p.order)) == InUse(BeforeSweep(t0, q.drops, q.order))
    requires var inUse := InUse(BeforeSweep(t0, p.drops, p.order));
      forall x :: !Sticks(t0.layers, t0.layers, inUse, CacheAfter(t0, env, t0.images.Keys), x)
    ensures t.layers == t'.layers
  {
    NeededLeft(t0, t, env, p, height);
    NeededLeft(t0, t', env, q, height);
    assert Submap(t.layers, t0.layers) && Submap(t'.layers, t0.layers);
  }

  lemma NeededLeft(t0: Tables, t: Tables, env: Env, p: Pass, height: map<Id, nat>)
    requires WellFormed(t0) && Bare(t0) && AllWorks(env) && Acyclic(t0.layers, height) && PassOutcome(t0, t, env, p)
    requires var inUse := InUse(BeforeSweep(t0, p.drops, p.order));
      forall x :: !Sticks(t0.layers, t0.layers, inUse, CacheAfter(t0, env, t0.images.Keys), x)
    ensures t.layers.Keys == NeededLayers(t0.layers, InUse(BeforeSweep(t0, p.drops, p.order)))
  {
    var mid, cache := BeforeSweep(t0, p.drops, p.order), CacheAfter(t0, env, t0.images.Keys);
    assert mid.layers == p.unswept;
    forall x
      ensures !Sticks(t0.layers, mid.layers, InUse(mid), cache, x)
    {
      if Sticks(t0.layers, mid.layers, InUse(mid), cache, x) {
        StuckBefore(t0, t, env, p, InUse(mid), cache, x);
      }
    }
    OnlyNeededLeftIff(t0, t, env, p, height);
  }

  // ---- Dropping an image where there are no containers ----

  lemma {:induction false} ReleasedFromIs(layers: Forest, stops: iset<Id>, mapped: seq<Id>, chain: seq<Id>, i: nat,
                                          k: nat)
    requires i <= k <= |chain| && forall j :: i <= j < k ==> Releasable(layers, stops, mapped, chain, j)
    requires k < |chain| ==> !Releasable(layers, stops, mapped, chain, k)
    ensures ReleasedFrom(layers, stops, mapped, chain, i) == k
    decreases k - i
  {
    if i < k {
      ReleasedFromIs(layers, stops, mapped, chain, i + 1, k);
    }
  }

  /** The layers up to the first that stops the walk go, and if any does the mapped top layers. */
  lemma DropIs(t: Tables, id: Id, chain: seq<Id>, k: nat)
    requires id in t.images && t.containers == map[] && IsChain(t.layers, t.images[id].topLayer, chain) && k <= |chain|
    requires var stops, mapped := StopsAt(map[], OtherTops(t.images - {id})), t.images[id].mappedTopLayers;
      && (forall j :: 0 <= j < k ==> Releasable(t.layers, stops, mapped, chain, j))
      && (k < |chain| ==> !Releasable(t.layers, stops, mapped, chain, k))
    ensures var mapped := if k == 0 then [] else t.images[id].mappedTopLayers;
      Drop(t, id) == t.(layers := t.layers - (set l | l in chain[..k]) - (set m | m in mapped),
        images := t.images - {id})
  {
    assert ContainersOf(t, id) == {} && WithoutContainersOf(t, id) == t by {
      assert t.layers - LayersOfContainers(t, {}) == t.layers;
    }
    ChainUnique(t.layers, t.images[id].topLayer, chain, ChainOf(t.layers, t.images[id].topLayer));
    ReleasedFromIs(t.layers, Stops(t.images, t.containers, id), t.images[id].mappedTopLayers, chain, 0, k);
  }

  // ---- The order of the drops may matter ----

  /** The image "i" has a mapped top layer that an earlier pass put into the cache; the image "j" is
      built on it. Nothing verifies. */
  function OrderTables(): Tables {
    Tables(map["a" := "b", "b" := "", "m" := ""],
           map["i" := Image("b", ["m"], []), "j" := Image("a", [], [])],
           map[],
           map[])
  }

  /** Dropped first, "i" releases nothing, and the cached layer stays; dropped last, it takes it along. */
  lemma OrderOfDropsMatters()
    ensures var t, env := OrderTables(), Env({}, {}, {}, {}, {"m"});
      && WellFormed(t) && !Passes(t, env, "i") && !Passes(t, env, "j") && CacheAfter(t, env, {"i", "j"}) == {"m"}
      && DropAll(t, ["i", "j"]).layers == map["m" := ""] && SweptOnce(map["m" := ""], {"m"}) == map["m" := ""]
      && DropAll(t, ["j", "i"]).layers == map[]
  {
    OrderChains();
    OrderFails(OrderTables());
    OneThenOther(OrderTables());
    OtherThenOne(OrderTables());
    assert !Removable(map["m" := ""], {"m"}, "m") by {
      if Removable(map["m" := ""], {"m"}, "m") {
        RemovableDown(map["m" := ""], {"m"}, "m");
      }
    }
  }

  lemma OrderChains()
    ensures WellFormed(OrderTables()) && Chain(OrderTables(), "i") == ["b"] && Chain(OrderTables(), "j") == ["a", "b"]
    ensures IsChain(OrderTables().layers, "b", ["b"]) && IsChain(OrderTables().layers, "a", ["a", "b"])
  {
    var layers := OrderTables().layers;
    assert ["a", "b"][1..] == ["b"] && ["b"][1..] == [];
    assert IsChain(layers, "b", ["b"]);
    assert IsChain(layers, "a", ["a", "b"]);
    ChainUnique(layers, "b", ["b"], ChainOf(layers, "b"));
    ChainUnique(layers, "a", ["a", "b"], ChainOf(layers, "a"));
  }

  lemma OrderFails(t: Tables)
    requires t == OrderTables() && AllRooted(t) && Chain(t, "i") == ["b"] && Chain(t, "j") == ["a", "b"]
    ensures var env := Env({}, {}, {}, {}, {"m"});
      !Passes(t, env, "i") && !Passes(t, env, "j") && CacheAfter(t, env, {"i", "j"}) == {"m"}
  {
    var env := Env({}, {}, {}, {}, {"m"});
    assert Good(t, env) == {"m"};
    assert ["b"][0] == "b" && ["a", "b"][0] == "a";
    assert Accepted(["b"], {"m"}, 0) == 0 && Accepted(["a", "b"], {"m"}, 0) == 0;
    assert AcceptedOf(t, env, "i") == {} && AcceptedOf(t, env, "j") == {};
  }

  lemma TwoDrops(t: Tables, a: Id, b: Id)
    ensures DropAll(t, [a, b]) == Drop(Drop(t, a), b)
  {
    assert [a][..0] == [] && DropAll(t, []) == t && DropAll(t, [a]) == Drop(t, a);
    assert [a, b][..1] == [a];
  }

  lemma OneThenOther(t: Tables)
    requires t == OrderTables()
    requires IsChain(t.layers, "b", ["b"]) && IsChain(t.layers, "a", ["a", "b"])
    ensures DropAll(t, ["i", "j"]).layers == map["m" := ""]
  {
    TwoDrops(t, "i", "j");
    OneFirst(t);
    OtherSecond(Drop(t, "i"));
  }

  lemma OneFirst(t: Tables)
    requires t == OrderTables() && IsChain(t.layers, "b", ["b"])
    ensures Drop(t, "i") == t.(images := map["j" := Image("a", [], [])])
  {
    assert "a" in Children(t.layers, "b");
    DropIs(t, "i", ["b"], 0);
    assert t.images - {"i"} == map["j" := Image("a", [], [])];
    assert ["b"][..0] == [];
  }

  lemma OtherSecond(t: Tables)
    requires t == OrderTables().(images := map["j" := Image("a", [], [])]) && IsChain(t.layers, "a", ["a", "b"])
    ensures Drop(t, "j").layers == map["m" := ""]
  {
    assert t.images - {"j"} == map[];
    NothingStops(t.layers);
    AllButOne(t.layers);
    DropIs(t, "j", ["a", "b"], 2);
  }

  lemma AllButOne(layers: Forest)
    requires layers == OrderTables().layers
    ensures layers - (set l | l in ["a", "b"][..2]) - (set m: Id | m in []) == map["m" := ""]
  {
    assert ["a", "b"][..2] == ["a", "b"] && ["a", "b"][0] == "a" && ["a", "b"][1] == "b";
    assert (set l | l in ["a", "b"][..2]) == {"a", "b"};
  }

  lemma NothingStops(layers: Forest)
    requires layers == OrderTables().layers
    ensures var stops := StopsAt(map[], OtherTops(map[]));
      Releasable(layers, stops, [], ["a", "b"], 0) && Releasable(layers, stops, [], ["a", "b"], 1)
  {
    assert Children(layers, "a") == {} && Children(layers, "b") == {"a"};
  }

  lemma OtherThenOne(t: Tables)
    requires t == OrderTables()
    requires IsChain(t.layers, "b", ["b"]) && IsChain(t.layers, "a", ["a", "b"])
    ensures DropAll(t, ["j", "i"]).layers == map[]
  {
    TwoDrops(t, "j", "i");
    OtherFirst(t);
    OneSecond(Drop(t, "j"));
  }

  lemma OtherFirst(t: Tables)
    requires t == OrderTables() && IsChain(t.layers, "a", ["a", "b"])
    ensures Drop(t, "j") == Tables(map["b" := "", "m" := ""], map["i" := Image("b", ["m"], [])], map[], map[])
  {
    assert t.images - {"j"} == map["i" := Image("b", ["m"], [])] && "i" in t.images - {"j"};
    DropIs(t, "j", ["a", "b"], 1);
    assert ["a", "b"][..1] == ["a"] && ["a"][0] == "a";
  }

  lemma OneSecond(t: Tables)
    requires t == Tables(map["b" := "", "m" := ""], map["i" := Image("b", ["m"], [])], map[], map[])
    ensures Drop(t, "i").layers == map[]
  {
    assert t.images - {"i"} == map[];
    assert IsChain(t.layers, "b", ["b"]) by { assert ["b"][1..] == []; }
    DropIs(t, "i", ["b"], 1);
    assert ["b"][..1] == ["b"] && ["b"][0] == "b" && ["m"][0] == "m";
  }

  // ---- Layers that leak ----

  /** Layers that were found good before their image failed stay in the cache, and so stay on disk
      with what they are built on, although no image is left: here "a" and "b" verify, "z" does not,
      and "j" keeps "b" from going with the image. */
  lemma LeakedLayersStay()
    ensures var t, env := LeakTables(), Env({"a", "b", "j"}, {}, {}, {}, {});
            var left := Drop(t, "i");
      && WellFormed(t) && !Passes(t, env, "i") && CacheAfter(t, env, {"i"}) == {"a", "b"}
      && left == Tables(map["b" := "z", "z" := "", "j" := "b"], map[], map[], map[])
      && SweptOnce(left.layers, {"a", "b"}) == map["b" := "z", "z" := ""]
  {
    LeakedChain();
    LeakedIsCached(LeakTables(), Env({"a", "b", "j"}, {}, {}, {}, {}), ["a", "b", "z"]);
    LeakedIsLeft(LeakTables(), ["a", "b", "z"]);
    LeakedIsSwept();
  }

  function LeakTables(): Tables {
    Tables(map["a" := "b", "b" := "z", "z" := "", "j" := "b"], map["i" := Image("a", [], [])], map[], map[])
  }

  lemma LeakedChain()
    ensures WellFormed(LeakTables()) && Chain(LeakTables(), "i") == ["a", "b", "z"]
  {
    var layers, chain := LeakTables().layers, ["a", "b", "z"];
    assert chain[1..] == ["b", "z"] && ["b", "z"][1..] == ["z"] && ["z"][1..] == [];
    assert IsChain(layers, "z", ["z"]);
    assert IsChain(layers, "b", ["b", "z"]);
    assert IsChain(layers, "a", chain);
    ChainUnique(layers, "a", chain, ChainOf(layers, "a"));
  }

  lemma LeakedIsSwept()
    ensures SweptOnce(map["b" := "z", "z" := "", "j" := "b"], {"a", "b"}) == map["b" := "z", "z" := ""]
  {
    var left, blocked := map["b" := "z", "z" := "", "j" := "b"], {"a", "b"};
    RemovableLeaf(left, blocked, "j");
    assert "b" in Children(left, "z");
    if Removable(left, blocked, "b") {
      RemovableDown(left, blocked, "b");
    }
    if Removable(left, blocked, "z") {
      RemovableDown(left, blocked, "z");
    }
  }

  lemma LeakedIsCached(t: Tables, env: Env, chain: seq<Id>)
    requires t == LeakTables()
    requires env == Env({"a", "b", "j"}, {}, {}, {}, {}) && chain == ["a", "b", "z"]
    requires AllRooted(t) && Chain(t, "i") == chain
    ensures !Passes(t, env, "i") && CacheAfter(t, env, {"i"}) == {"a", "b"}
  {
    assert chain[2] == "z" && "z" !in Good(t, env);
    assert Accepted(chain, Good(t, env), 0) == 2;
    assert chain[..2] == ["a", "b"];
    assert AcceptedOf(t, env, "i") == {"a", "b"} by {
      assert ["a", "b"][0] == "a" && ["a", "b"][1] == "b";
    }
  }

  lemma LeakedIsLeft(t: Tables, chain: seq<Id>)
    requires t == LeakTables() && chain == ["a", "b", "z"] && IsChain(t.layers, "a", chain)
    ensures Drop(t, "i") == Tables(map["b" := "z", "z" := "", "j" := "b"], map[], map[], map[])
  {
    assert "j" in Children(t.layers, "b");
    assert t.images - {"i"} == map[];
    DropIs(t, "i", chain, 1);
    assert chain[..1] == ["a"] && ["a"][0] == "a";
  }
}
