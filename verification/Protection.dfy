/** What the integrity pass may rely on, and why deleting one image or container takes nothing
    from the chain of another image. */
module Protection {
  import opened Layers
  import opened Chains
  import opened Lookup

  datatype Image = Image(topLayer: Id, mappedTopLayers: seq<Id>, names: seq<string>)

  datatype Container = Container(imageID: Id, layerID: Id, names: seq<string>)

  type Images = map<Id, Image>

  type Containers = map<Id, Container>

  /** The names of layers are kept apart; one counts as long as its layer is there. */
  datatype Tables = Tables(layers: Forest, images: Images, containers: Containers, layerNames: map<string, Id>)

  ghost predicate Submap<K, V>(part: map<K, V>, whole: map<K, V>) {
    part.Keys <= whole.Keys && forall k :: k in part ==> part[k] == whole[k]
  }

  /** Layers have IDs, and walking up from an image ends. */
  ghost predicate Walkable(t: Tables) {
    "" !in t.layers && AllRooted(t)
  }

  /** Besides, the layer a container writes to is on no image's chain, and the top layers made for
      one image's ID mappings are private to it. */
  ghost predicate WellFormed(t: Tables) {
    && Walkable(t)
    && (forall i, c :: i in t.images && c in t.containers ==> t.containers[c].layerID !in Chain(t, i))
    && MappedPrivate(t.images)
  }

  ghost predicate AllRooted(t: Tables) {
    forall i :: i in t.images ==> Rooted(t.layers, t.images[i].topLayer)
  }

  ghost function Chain(t: Tables, image: Id): seq<Id>
    requires AllRooted(t) && image in t.images
  {
    ChainOf(t.layers, t.images[image].topLayer)
  }

  ghost predicate MappedPrivate(images: Images) {
    forall i, j, m :: i in images && j in images && i != j && m in images[i].mappedTopLayers ==> m != images[j].topLayer
  }

  function ContainerLayers(containers: Containers): set<Id> {
    set c | c in containers :: containers[c].layerID
  }

  function LayersOfContainers(t: Tables, cs: set<Id>): set<Id>
    requires cs <= t.containers.Keys
  {
    set c | c in cs :: t.containers[c].layerID
  }

  /** The layers that images and containers name. */
  function Uses(t: Tables): set<Id> {
    OtherTops(t.images) + ContainerLayers(t.containers)
  }

  lemma UsesIff(t: Tables, l: Id)
    ensures l in Uses(t) <==>
            || (exists i :: i in t.images && (t.images[i].topLayer == l || l in t.images[i].mappedTopLayers))
            || exists c :: c in t.containers && t.containers[c].layerID == l
  {
  }

  /** The layer a container writes to, and everything under it. */
  ghost function Under(t: Tables, c: Id): seq<Id>
    requires c in t.containers && Rooted(t.layers, t.containers[c].layerID)
  {
    ChainOf(t.layers, t.containers[c].layerID)
  }

  /** The layer a container writes to is under no other container and no mapped top layer. */
  ghost predicate ContainersPrivate(t: Tables) {
    && (forall c :: c in t.containers ==> Rooted(t.layers, t.containers[c].layerID))
    && (forall c, d :: c in t.containers && d in t.containers && c != d ==> t.containers[d].layerID !in Under(t, c))
    && forall c, i :: c in t.containers && i in t.images ==> t.containers[c].layerID !in t.images[i].mappedTopLayers
  }

  /** Some layers, images and containers are gone, but no image that is left lost a layer. */
  ghost predicate ChainsKept(t0: Tables, t: Tables)
    requires AllRooted(t0)
  {
    && Submap(t.layers, t0.layers)
    && Submap(t.images, t0.images)
    && Submap(t.containers, t0.containers)
    && forall i :: i in t.images ==> Kept(t0.layers, t.layers, Chain(t0, i))
  }

  lemma {:induction false} CutChainEnds(before: Forest, after: Forest, top: Id, chain: seq<Id>)
    requires IsChain(before, top, chain) && Submap(after, before)
    ensures Rooted(after, top)
    decreases |chain|
  {
    if top == "" || top !in after {
      assert IsChain(after, top, if top == "" then [] else [top]);
    } else {
      CutChainEnds(before, after, before[top], chain[1..]);
      var rest := ChainOf(after, before[top]);
      assert ([top] + rest)[1..] == rest;
      assert IsChain(after, top, [top] + rest);
    }
  }

  /** Whatever layers and images go, the walks that are left end. */
  lemma StaysWalkable(t0: Tables, t: Tables)
    requires Walkable(t0) && Submap(t.layers, t0.layers) && Submap(t.images, t0.images)
    ensures Walkable(t)
  {
    forall i | i in t.images
      ensures Rooted(t.layers, t.images[i].topLayer)
    {
      CutChainEnds(t0.layers, t.layers, t0.images[i].topLayer, Chain(t0, i));
    }
  }

  lemma SameChain(layers0: Forest, layers: Forest, top: Id)
    requires Rooted(layers0, top)
    requires Submap(layers, layers0) && Kept(layers0, layers, ChainOf(layers0, top))
    ensures Rooted(layers, top) && ChainOf(layers, top) == ChainOf(layers0, top)
  {
    ChainStable(layers0, layers, top, ChainOf(layers0, top));
    ChainUnique(layers, top, ChainOf(layers, top), ChainOf(layers0, top));
  }

  lemma StaysWellFormed(t0: Tables, t: Tables)
    requires WellFormed(t0) && ChainsKept(t0, t)
    ensures WellFormed(t)
    ensures forall i :: i in t.images ==> Chain(t, i) == Chain(t0, i)
  {
    forall i | i in t.images
      ensures Rooted(t.layers, t.images[i].topLayer)
      ensures ChainOf(t.layers, t.images[i].topLayer) == ChainOf(t0.layers, t0.images[i].topLayer)
    {
      SameChain(t0.layers, t.layers, t0.images[i].topLayer);
    }
  }

  lemma ChainsKeptTrans(t0: Tables, t1: Tables, t2: Tables)
    requires WellFormed(t0) && WellFormed(t1) && ChainsKept(t0, t1) && ChainsKept(t1, t2)
    ensures ChainsKept(t0, t2)
  {
    StaysWellFormed(t0, t1);
  }

  /** Losing container layers keeps the chains. */
  lemma ContainerLayersOff(t: Tables, layers: Forest, containers: Containers)
    requires WellFormed(t) && Submap(layers, t.layers) && Submap(containers, t.containers)
    requires forall l :: l in t.layers && l !in layers ==> exists c :: c in t.containers && t.containers[c].layerID == l
    ensures ChainsKept(t, t.(layers := layers, containers := containers))
  {
  }

  /** What the container store finds: by ID, by name, by the layer written to, or by the
      beginning of one ID. */
  predicate ContainerFound(containers: Containers, key: string) {
    || key in containers
    || (exists c :: c in containers && key in containers[c].names)
    || key in ContainerLayers(containers)
    || Shortens(containers.Keys, key)
  }

  /** The layers DeleteImage must stop at: those by which the container store finds a container,
      above all the layers that containers write to, and the top and mapped top layers of the
      other images. */
  ghost function Stops(images: Images, containers: Containers, id: Id): iset<Id> {
    StopsAt(containers, OtherTops(images - {id}))
  }

  ghost function StopsAt(containers: Containers, otherTops: set<Id>): iset<Id> {
    iset l | l in otherTops || ContainerFound(containers, l)
  }

  function OtherTops(images: Images): set<Id> {
    (set i | i in images :: images[i].topLayer) + (set i, l | i in images && l in images[i].mappedTopLayers :: l)
  }

  /** DeleteImage goes on to release layer `i` of the chain: nothing stops it there, and the
      only child is the layer released before it. */
  ghost predicate Releasable(layers: Forest, stops: iset<Id>, mapped: seq<Id>, chain: seq<Id>, i: nat)
    requires i < |chain|
  {
    && chain[i] !in stops
    && Children(layers, chain[i]) <= (if i == 0 then {} else {chain[i - 1]})
    && (i == 0 ==> forall m :: m in mapped ==> Children(layers, m) == {})
  }

  ghost function ReleasedFrom(layers: Forest, stops: iset<Id>, mapped: seq<Id>, chain: seq<Id>, i: nat): (k: nat)
    requires i <= |chain|
    ensures i <= k <= |chain|
    ensures forall j :: i <= j < k ==> Releasable(layers, stops, mapped, chain, j)
    decreases |chain| - i
  {
    if i < |chain| && Releasable(layers, stops, mapped, chain, i)
    then ReleasedFrom(layers, stops, mapped, chain, i + 1)
    else i
  }

  /** The layers DeleteImage releases. */
  ghost function Released(t: Tables, id: Id): set<Id>
    requires id in t.images && Rooted(t.layers, t.images[id].topLayer)
  {
    var chain := ChainOf(t.layers, t.images[id].topLayer);
    var k := ReleasedFrom(t.layers, Stops(t.images, t.containers, id), t.images[id].mappedTopLayers, chain, 0);
    (set l | l in chain[..k]) + (if k == 0 then {} else set m | m in t.images[id].mappedTopLayers)
  }

  // ---- In terms of the tables alone ----

  ghost predicate OnlyOneBegins(ids: set<Id>, key: string) {
    key != "" && exists id :: id in ids && key <= id && forall other :: other in ids && other != id ==> !(key <= other)
  }

  /** The layer is no container's ID, name or written layer and begins no one container's ID. */
  ghost predicate NoContainerHas(containers: Containers, l: Id) {
    && (forall c :: c in containers ==> c != l && l !in containers[c].names && containers[c].layerID != l)
    && !OnlyOneBegins(containers.Keys, l)
  }

  /** No image but this one has the layer as its top or a mapped top layer. */
  ghost predicate NoOtherImageHas(images: Images, id: Id, l: Id) {
    forall i :: i in images && i != id ==> images[i].topLayer != l && l !in images[i].mappedTopLayers
  }

  ghost predicate CarriesOnly(layers: Forest, l: Id, allowed: set<Id>) {
    forall child :: child in layers && layers[child] == l ==> child in allowed
  }

  /** Layer `n` of the image's chain is nobody else's, and carries nothing but the layer before it;
      nor do the mapped top layers carry anything, if it is the first. */
  ghost predicate Free(t: Tables, id: Id, n: nat)
    requires AllRooted(t) && id in t.images && n < |Chain(t, id)|
  {
    var chain, l := Chain(t, id), Chain(t, id)[n];
    && NoContainerHas(t.containers, l) && NoOtherImageHas(t.images, id, l)
    && CarriesOnly(t.layers, l, if n == 0 then {} else {chain[n - 1]})
    && (n == 0 ==> forall m :: m in t.images[id].mappedTopLayers ==> CarriesOnly(t.layers, m, {}))
  }

  /** The layer goes with the image: it and all before it on the chain are free, or it is a mapped top
      layer and the first of the chain is free. */
  ghost predicate Goes(t: Tables, id: Id, l: Id)
    requires AllRooted(t) && id in t.images
  {
    var chain := Chain(t, id);
    || (exists n :: 0 <= n < |chain| && chain[n] == l && forall j :: 0 <= j <= n ==> Free(t, id, j))
    || (l in t.images[id].mappedTopLayers && |chain| > 0 && Free(t, id, 0))
  }

  /** Just these layers are released. */
  lemma ReleasedIff(t: Tables, id: Id, l: Id)
    requires AllRooted(t) && id in t.images
    ensures l in Released(t, id) <==> Goes(t, id, l)
  {
    var chain, mapped := Chain(t, id), t.images[id].mappedTopLayers;
    var stops := Stops(t.images, t.containers, id);
    var k := ReleasedFrom(t.layers, stops, mapped, chain, 0);
    forall n | 0 <= n < |chain|
      ensures Releasable(t.layers, stops, mapped, chain, n) <==> Free(t, id, n)
    {
      FreeIff(t, id, n);
    }
    ReleasedMaximal(t.layers, stops, mapped, chain, 0);
  }

  /** Of the old layers just those are missing that go with the image, but for some that resist. */
  ghost predicate LosesJust(t: Tables, id: Id, resist: set<Id>, layers: Forest)
    requires AllRooted(t) && id in t.images
  {
    forall l :: l in t.layers ==> (l !in layers <==> Goes(t, id, l) && l !in resist)
  }

  lemma ReleasedAreLost(t: Tables, id: Id, resist: set<Id>)
    requires AllRooted(t) && id in t.images
    ensures LosesJust(t, id, resist, t.layers - (Released(t, id) - resist))
  {
    forall l
      ensures l in Released(t, id) <==> Goes(t, id, l)
    {
      ReleasedIff(t, id, l);
    }
  }

  lemma {:induction false} ReleasedMaximal(layers: Forest, stops: iset<Id>, mapped: seq<Id>, chain: seq<Id>, i: nat)
    requires i <= |chain|
    ensures var k := ReleasedFrom(layers, stops, mapped, chain, i);
      k < |chain| ==> !Releasable(layers, stops, mapped, chain, k)
    decreases |chain| - i
  {
    if i < |chain| && Releasable(layers, stops, mapped, chain, i) {
      ReleasedMaximal(layers, stops, mapped, chain, i + 1);
    }
  }

  lemma FreeIff(t: Tables, id: Id, n: nat)
    requires AllRooted(t) && id in t.images && n < |Chain(t, id)|
    ensures var stops, mapped := Stops(t.images, t.containers, id), t.images[id].mappedTopLayers;
      Releasable(t.layers, stops, mapped, Chain(t, id), n) <==> Free(t, id, n)
  {
    var chain := Chain(t, id);
    StopsIff(t.images, t.containers, id, chain[n]);
    ChildIff(t.layers, chain[n], if n == 0 then {} else {chain[n - 1]});
    forall m | m in t.images[id].mappedTopLayers
      ensures Children(t.layers, m) == {} <==> CarriesOnly(t.layers, m, {})
    {
      ChildIff(t.layers, m, {});
    }
  }

  lemma ChildIff(layers: Forest, l: Id, allowed: set<Id>)
    ensures Children(layers, l) <= allowed <==> CarriesOnly(layers, l, allowed)
  {
  }

  lemma StopsIff(images: Images, containers: Containers, id: Id, l: Id)
    ensures l !in Stops(images, containers, id) <==> NoContainerHas(containers, l) && NoOtherImageHas(images, id, l)
  {
    ContainerFoundIff(containers, l);
    forall i | i in images && i != id
      ensures i in images - {id} && (images - {id})[i] == images[i]
    {
    }
  }

  lemma ContainerFoundIff(containers: Containers, l: Id)
    ensures !ContainerFound(containers, l) <==> NoContainerHas(containers, l)
  {
  }

  lemma {:induction false} PrefixOffOtherChains(layers: Forest, stops: iset<Id>, mapped: seq<Id>, chain: seq<Id>,
                                                i: nat,
                                                top: Id, other: seq<Id>)
    requires "" !in layers && IsChain(layers, top, other)
    requires i < |chain| && forall j :: 0 <= j <= i ==> chain[j] != top && Releasable(layers, stops, mapped, chain, j)
    ensures chain[i] !in other
  {
    if i > 0 {
      PrefixOffOtherChains(layers, stops, mapped, chain, i - 1, top, other);
    }
    if chain[i] in other {
      assert Releasable(layers, stops, mapped, chain, i);
      ChainChild(layers, top, other, chain[i]);
    }
  }

  /** A chain whose top is not released loses nothing. */
  lemma ReleasedSparesUnder(t: Tables, id: Id, top: Id, other: seq<Id>)
    requires "" !in t.layers && AllRooted(t) && id in t.images
    requires IsChain(t.layers, top, other) && top !in Released(t, id)
    ensures Released(t, id) !! (set l | l in other)
  {
    var chain, mapped := Chain(t, id), t.images[id].mappedTopLayers;
    var stops := Stops(t.images, t.containers, id);
    var k := ReleasedFrom(t.layers, stops, mapped, chain, 0);
    forall l | l in Released(t, id) && l in other
      ensures false
    {
      if l in chain[..k] {
        var i :| 0 <= i < k && chain[i] == l;
        assert forall j :: 0 <= j < k ==> chain[j] in Released(t, id);
        PrefixOffOtherChains(t.layers, stops, mapped, chain, i, top, other);
      } else {
        assert Releasable(t.layers, stops, mapped, chain, 0);
        ChainChild(t.layers, top, other, l);
      }
    }
  }

  /** DeleteImage spares a chain whose top stops it unless it releases anything and that top is
      among the mapped top layers of the image. */
  lemma StoppedSparesIff(t: Tables, id: Id, top: Id, other: seq<Id>)
    requires "" !in t.layers && AllRooted(t) && id in t.images
    requires IsChain(t.layers, top, other) && top in Stops(t.images, t.containers, id)
    ensures Released(t, id) !! (set l | l in other) <==>
            !(Released(t, id) != {} && top != "" && top in t.images[id].mappedTopLayers)
  {
    var chain := Chain(t, id);
    var stops, mapped := Stops(t.images, t.containers, id), t.images[id].mappedTopLayers;
    var k := ReleasedFrom(t.layers, stops, mapped, chain, 0);
    if Released(t, id) != {} && top != "" && top in mapped {
      assert top in Released(t, id) && top == other[0];
    } else if Released(t, id) != {} && top != "" {
      forall i | 0 <= i < k
        ensures chain[i] != top
      {
        assert Releasable(t.layers, stops, mapped, chain, i);
      }
      ReleasedSparesUnder(t, id, top, other);
    }
  }

  /** So it is for the chain of another image. */
  lemma ReleasedSparesIff(t: Tables, id: Id, j: Id)
    requires "" !in t.layers && AllRooted(t)
    requires id in t.images && j in t.images && id != j
    ensures var top := t.images[j].topLayer;
      Released(t, id) !! (set l | l in Chain(t, j)) <==>
      !(Released(t, id) != {} && top != "" && top in t.images[id].mappedTopLayers)
  {
    var top := t.images[j].topLayer;
    assert (t.images - {id})[j].topLayer == top;
    StoppedSparesIff(t, id, top, Chain(t, j));
  }

  /** And for the layer of a container, whichever image it is of, with everything under it. */
  lemma ReleasedSparesContainerIff(t: Tables, id: Id, c: Id)
    requires "" !in t.layers && AllRooted(t) && id in t.images
    requires c in t.containers && Rooted(t.layers, t.containers[c].layerID)
    ensures var top := t.containers[c].layerID;
      Released(t, id) !! (set l | l in Under(t, c)) <==>
      !(Released(t, id) != {} && top != "" && top in t.images[id].mappedTopLayers)
  {
    var top := t.containers[c].layerID;
    assert top in ContainerLayers(t.containers);
    StoppedSparesIff(t, id, top, Under(t, c));
  }

  /** And for a mapped top layer of another image, with everything under it. */
  lemma ReleasedSparesMappedIff(t: Tables, id: Id, j: Id, m: Id)
    requires "" !in t.layers && AllRooted(t) && id in t.images && j in t.images && id != j
    requires m in t.images[j].mappedTopLayers && Rooted(t.layers, m)
    ensures Released(t, id) !! (set l | l in ChainOf(t.layers, m)) <==>
            !(Released(t, id) != {} && m != "" && m in t.images[id].mappedTopLayers)
  {
    assert (t.images - {id})[j].mappedTopLayers == t.images[j].mappedTopLayers;
    StoppedSparesIff(t, id, m, ChainOf(t.layers, m));
  }

  /** Deleting an image, whichever of the released layers the driver lets go, keeps the chains
      of all others. */
  lemma DeleteImageKeepsChains(t: Tables, id: Id, gone: set<Id>)
    requires WellFormed(t) && id in t.images
    requires gone <= Released(t, id)
    ensures ChainsKept(t, t.(layers := t.layers - gone, images := t.images - {id}))
  {
    forall j | j in t.images - {id} {
      ReleasedSparesIff(t, id, j);
    }
  }

  /** The condition on mapped top layers cannot be dropped: here the deletion of image "a"
      releases the top layer of image "b". */
  lemma SharedMappedLayerIsLost()
    ensures var t := SharedMapped();
      "" !in t.layers && AllRooted(t) && "m" in Chain(t, "b") && "m" in Released(t, "a")
  {
    var t := SharedMapped();
    assert IsChain(t.layers, "t", ["t"]) && IsChain(t.layers, "m", ["m"]);
    ChainUnique(t.layers, "t", ["t"], ChainOf(t.layers, "t"));
    ChainUnique(t.layers, "m", ["m"], ChainOf(t.layers, "m"));
    assert t.images - {"a"} == map["b" := Image("m", [], [])];
    var stops := Stops(t.images, t.containers, "a");
    assert !ContainerFound(t.containers, "t") && "t" !in stops;
    assert Releasable(t.layers, stops, ["m"], ["t"], 0);
    assert ReleasedFrom(t.layers, stops, ["m"], ["t"], 0) == 1;
    assert "m" in ["m"] by { assert ["m"][0] == "m"; }
  }

  function SharedMapped(): Tables {
    Tables(map["t" := "", "m" := ""], map["a" := Image("t", ["m"], []), "b" := Image("m", [], [])], map[], map[])
  }
}
