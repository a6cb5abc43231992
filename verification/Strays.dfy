/** The walk over the containers that deletes those whose image is not found, when every deletion
    works: what finding means, and when the walk clears all that have no image. */
module Strays {
  import opened Layers
  import opened Chains
  import opened Lookup
  import opened Protection
  import opened Slices

  // ---- Looking up an ID or a name ----

  /** Found without shortening, among the layers, images or containers. */
  predicate FoundWhole(t: Tables, key: string) {
    || key in t.layers || (key in t.layerNames && t.layerNames[key] in t.layers)
    || key in t.images || (exists i :: i in t.images && key in t.images[i].names)
    || key in t.containers || (exists c :: c in t.containers && key in t.containers[c].names)
    || key in ContainerLayers(t.containers)
  }

  /** The store's Exists. */
  predicate ExistsIn(t: Tables, key: string) {
    || FoundWhole(t, key)
    || Shortens(t.layers.Keys, key) || Shortens(t.images.Keys, key) || Shortens(t.containers.Keys, key)
  }

  // ---- The walk ----

  function Visit(t: Tables, c: Id): Tables {
    if c in t.containers && !ExistsIn(t, t.containers[c].imageID) then WithoutContainers(t, {c}) else t
  }

  function Walked(t: Tables, order: seq<Id>): Tables {
    if order == [] then t else Visit(Walked(t, order[..|order| - 1]), order[|order| - 1])
  }

  /** The tables without some containers and their layers. */
  function WithoutContainers(t: Tables, gone: set<Id>): Tables
    requires gone <= t.containers.Keys
  {
    t.(layers := t.layers - LayersOfContainers(t, gone), containers := t.containers - gone)
  }

  /** The IDs in some order. */
  ghost predicate Orders(order: seq<Id>, ids: set<Id>) {
    NoRepeat(order) && forall x :: x in order <==> x in ids
  }

  /** The containers whose image is not there. */
  function Orphans(t: Tables): set<Id> {
    set c | c in t.containers && t.containers[c].imageID !in t.images
  }

  ghost predicate NoOrphans(t: Tables) {
    forall c :: c in t.containers ==> t.containers[c].imageID in t.images
  }

  // ---- What could be mistaken for the image ----

  /** The key is, or once some of `gone` are gone may become, the beginning of just one of the IDs. */
  predicate MayShorten(ids: set<string>, gone: set<string>, key: string) {
    key != "" && exists id ::
      && id in ids && key <= id
      && forall other :: other in ids && key <= other && other != id ==> other in gone
  }

  /** Something else has the name or ID where this container's image belongs, or its beginning
      unless two do that the walk cannot delete before it comes to this container. */
  predicate MayBeFound(t: Tables, c: Id)
    requires c in t.containers
  {
    var key, others := t.containers[c].imageID, Orphans(t) - {c};
    || FoundWhole(t, key)
    || MayShorten(t.layers.Keys, LayersOfContainers(t, others), key)
    || MayShorten(t.images.Keys, {}, key)
    || MayShorten(t.containers.Keys, others, key)
  }

  /** No container without image has anything that could be mistaken for its image. */
  predicate Apart(t: Tables) {
    forall c :: c in Orphans(t) ==> !MayBeFound(t, c)
  }

  // ---- The walk clears them all exactly if the containers are apart ----

  /** The walk deletes some of the orphans in its order, and nothing else. */
  ghost predicate Deletes(t: Tables, t': Tables, order: seq<Id>, gone: set<Id>) {
    gone <= Orphans(t) && (forall c :: c in gone ==> c in order) && t' == WithoutContainers(t, gone)
  }

  lemma {:induction false} WalkedDeletes(t: Tables, order: seq<Id>) returns (gone: set<Id>)
    ensures Deletes(t, Walked(t, order), order, gone)
  {
    gone := {};
    if order != [] {
      var init, last := order[..|order| - 1], order[|order| - 1];
      assert order == init + [last];
      gone := WalkedDeletes(t, init);
      var before := Walked(t, init);
      if last in before.containers && !ExistsIn(before, before.containers[last].imageID) {
        WithoutMore(t, gone, last);
        gone := gone + {last};
      }
    }
  }

  lemma WithoutMore(t: Tables, gone: set<Id>, c: Id)
    requires gone <= t.containers.Keys && c in t.containers && c !in gone
    ensures WithoutContainers(WithoutContainers(t, gone), {c}) == WithoutContainers(t, gone + {c})
  {
    assert t.layers - LayersOfContainers(t, gone) - {t.containers[c].layerID} ==
      t.layers - LayersOfContainers(t, gone + {c});
    assert t.containers - gone - {c} == t.containers - (gone + {c});
  }

  lemma WalkedShrinks(t: Tables, order: seq<Id>)
    ensures Walked(t, order).images == t.images
    ensures Submap(Walked(t, order).layers, t.layers) && Submap(Walked(t, order).containers, t.containers)
    ensures forall c :: c in t.containers && c !in order ==> c in Walked(t, order).containers
  {
    var gone := WalkedDeletes(t, order);
  }

  lemma {:induction false} WalkedOn(t: Tables, a: seq<Id>, b: seq<Id>)
    ensures Walked(t, a + b) == Walked(Walked(t, a), b)
  {
    if b == [] {
      assert a + b == a;
    } else {
      assert (a + b)[..|a + b| - 1] == a + b[..|b| - 1];
      WalkedOn(t, a, b[..|b| - 1]);
    }
  }

  /** What is found when other orphans are gone might have been expected. */
  lemma FoundLater(t: Tables, gone: set<Id>, c: Id)
    requires c in Orphans(t) && gone <= Orphans(t) - {c}
    requires ExistsIn(WithoutContainers(t, gone), t.containers[c].imageID)
    ensures MayBeFound(t, c)
  {
    var key, t', others := t.containers[c].imageID, WithoutContainers(t, gone), Orphans(t) - {c};
    if FoundWhole(t', key) {
      assert FoundWhole(t, key);
    } else if Shortens(t'.layers.Keys, key) {
      LaterShortens(t.layers.Keys, LayersOfContainers(t, gone), LayersOfContainers(t, others), key);
      assert t'.layers.Keys == t.layers.Keys - LayersOfContainers(t, gone);
    } else if Shortens(t'.containers.Keys, key) {
      LaterShortens(t.containers.Keys, gone, others, key);
      assert t'.containers.Keys == t.containers.Keys - gone;
    } else {
      LaterShortens(t.images.Keys, {}, {}, key);
      assert t.images.Keys - {} == t.images.Keys;
    }
  }

  lemma LaterShortens(ids: set<string>, gone: set<string>, more: set<string>, key: string)
    requires gone <= more
    ensures Shortens(ids - gone, key) ==> MayShorten(ids, more, key)
  {
    if Shortens(ids - gone, key) {
      var id :| id in ids - gone && key <= id && forall other :: other in ids - gone && key <= other ==> other == id;
      assert forall other :: other in ids && key <= other && other != id ==> other !in ids - gone;
    }
  }

  lemma {:induction false} ApartWalked(t: Tables, order: seq<Id>)
    requires Apart(t) && NoRepeat(order)
    ensures forall c :: c in order && c in Orphans(t) ==> c !in Walked(t, order).containers
  {
    if order != [] {
      var init, last := order[..|order| - 1], order[|order| - 1];
      assert order == init + [last];
      ApartWalked(t, init);
      var gone := WalkedDeletes(t, init);
      if last in Orphans(t) && ExistsIn(Walked(t, init), t.containers[last].imageID) {
        FoundLater(t, gone, last);
      }
    }
  }

  /** When a container is visited while something is found where its image belongs, it stays. */
  lemma StaysOnceFound(t: Tables, before: seq<Id>, c: Id, rest: seq<Id>)
    requires c in t.containers && c !in before && c !in rest && ExistsIn(Walked(t, before), t.containers[c].imageID)
    ensures c in Walked(t, before + [c] + rest).containers
  {
    WalkedShrinks(t, before);
    var t' := Walked(t, before);
    assert Walked(t', [c]) == Visit(Walked(t', []), c) == t' by {
      assert [c][..0] == [];
    }
    WalkedOn(t, before, [c]);
    WalkedOn(t, before + [c], rest);
    WalkedShrinks(t', rest);
  }

  lemma {:induction false} SomeOrder(ids: set<Id>) returns (order: seq<Id>)
    ensures Orders(order, ids)
  {
    if x :| x in ids {
      var rest := SomeOrder(ids - {x});
      order := [x] + rest;
    } else {
      order := [];
    }
  }

  /** If something may be found, then it is after some of the others are gone. */
  lemma GoneSoThatFound(t: Tables, c: Id) returns (gone: set<Id>)
    requires c in Orphans(t) && MayBeFound(t, c)
    ensures gone <= Orphans(t) - {c} && ExistsIn(WithoutContainers(t, gone), t.containers[c].imageID)
  {
    var key, others := t.containers[c].imageID, Orphans(t) - {c};
    gone := {};
    if FoundWhole(t, key) || MayShorten(t.images.Keys, {}, key) {
      assert WithoutContainers(t, {}) == t by {
        assert t.layers - LayersOfContainers(t, {}) == t.layers && t.containers - {} == t.containers;
      }
    } else if MayShorten(t.layers.Keys, LayersOfContainers(t, others), key) {
      var id :| id in t.layers.Keys && key <= id
             && forall other :: other in t.layers.Keys && key <= other && other != id ==>
               other in LayersOfContainers(t, others);
      gone := set d | d in others && t.containers[d].layerID != id;
      var left := WithoutContainers(t, gone).layers.Keys;
      assert id in left && forall other :: other in left && key <= other ==> other == id;
    } else {
      var id :| id in t.containers.Keys && key <= id
             && forall other :: other in t.containers.Keys && key <= other && other != id ==> other in others;
      gone := set d | d in others && d != id;
      var left := WithoutContainers(t, gone).containers.Keys;
      assert id in left && forall other :: other in left && key <= other ==> other == id;
    }
  }

  /** An order in which some container without image stays. */
  lemma OrderThatLeaves(t: Tables) returns (order: seq<Id>)
    requires !Apart(t)
    ensures Orders(order, t.containers.Keys) && !NoOrphans(Walked(t, order))
  {
    var c :| c in Orphans(t) && MayBeFound(t, c);
    var gone := GoneSoThatFound(t, c);
    var before := SomeOrder(gone);
    var rest := SomeOrder(t.containers.Keys - gone - {c});
    order := before + ([c] + rest);
    OrdersJoin([c], {c}, rest, t.containers.Keys - gone - {c});
    OrdersJoin(before, gone, [c] + rest, t.containers.Keys - gone);
    var d := OneStays(t, gone, before, c, rest);
    WalkedShrinks(t, order);
  }

  /** The container stays, or one of those to go before it was itself found and stays. */
  lemma OneStays(t: Tables, gone: set<Id>, before: seq<Id>, c: Id, rest: seq<Id>) returns (d: Id)
    requires c in Orphans(t) && gone <= Orphans(t) - {c}
    requires ExistsIn(WithoutContainers(t, gone), t.containers[c].imageID)
    requires Orders(before, gone) && c !in rest && forall x :: x in rest ==> x !in gone
    ensures d in Orphans(t) && d in Walked(t, before + ([c] + rest)).containers
  {
    var gone' := WalkedDeletes(t, before);
    d := c;
    if gone' == gone {
      StaysOnceFound(t, before, c, rest);
      assert before + [c] + rest == before + ([c] + rest);
    } else {
      d :| d in gone && d !in gone';
      WalkedOn(t, before, [c] + rest);
      WalkedShrinks(Walked(t, before), [c] + rest);
    }
  }

  lemma OrdersJoin(a: seq<Id>, ids: set<Id>, b: seq<Id>, others: set<Id>)
    requires Orders(a, ids) && Orders(b, others) && ids !! others
    ensures Orders(a + b, ids + others)
  {
    var all := a + b;
    forall i, j | 0 <= i < j < |all|
      ensures all[i] != all[j]
    {
      if i < |a| <= j {
        assert all[i] in a && all[j] in b;
      }
    }
  }

  /** The walk clears every container without image, in whatever order it goes, exactly if none of
      them has anything that could be mistaken for its image. */
  lemma OrphansGoIff(t: Tables)
    ensures (forall order :: Orders(order, t.containers.Keys) ==> NoOrphans(Walked(t, order))) <==> Apart(t)
  {
    if Apart(t) {
      forall order | Orders(order, t.containers.Keys)
        ensures NoOrphans(Walked(t, order))
      {
        ApartWalked(t, order);
        WalkedShrinks(t, order);
      }
    } else {
      var order := OrderThatLeaves(t);
    }
  }

  // ---- In terms of the tables alone ----

  /** Nothing in the tables has the ID, the name or the written layer that this container has where
      its image's ID belongs, and no ID begins so. */
  ghost predicate Unnoticed(t: Tables, c: Id)
    requires c in t.containers
  {
    var key := t.containers[c].imageID;
    && (forall l :: l in t.layers ==> l != key && (key == "" || !(key <= l)))
    && (forall l :: l in t.layers ==> !(key in t.layerNames && t.layerNames[key] == l))
    && (forall i :: i in t.images ==> i != key && key !in t.images[i].names && (key == "" || !(key <= i)))
    && (forall d :: d in t.containers ==>
          d != key && key !in t.containers[d].names && t.containers[d].layerID != key && (key == "" || !(key <= d)))
  }

  /** Such a container is gone after the walk, with its layer, in whatever order it goes. */
  lemma {:induction false} UnnoticedGoes(t: Tables, order: seq<Id>, c: Id)
    requires c in t.containers && Unnoticed(t, c) && NoRepeat(order) && c in order
    ensures c !in Walked(t, order).containers && t.containers[c].layerID !in Walked(t, order).layers
  {
    var init, last := order[..|order| - 1], order[|order| - 1];
    assert order == init + [last];
    var before := Walked(t, init);
    if c in init {
      UnnoticedGoes(t, init, c);
      WalkedShrinks(before, [last]);
    } else {
      WalkedShrinks(t, init);
      var gone := WalkedDeletes(t, init);
      assert Unnoticed(before, c);
      NothingFound(before, c);
    }
  }

  lemma NothingFound(t: Tables, c: Id)
    requires c in t.containers && Unnoticed(t, c)
    ensures !ExistsIn(t, t.containers[c].imageID)
  {
  }

  /** The ways in which something is noticed. */
  datatype Way = LayerID | LayerName | ImageID | ImageName | ContainerID | ContainerName | WrittenLayer
               | BeginsLayer | BeginsImage | BeginsContainer

  ghost predicate Noticed(t: Tables, c: Id, way: Way)
    requires c in t.containers
  {
    var key := t.containers[c].imageID;
    match way
    case LayerID => exists l :: l in t.layers && l == key
    case LayerName => exists l :: l in t.layers && key in t.layerNames && t.layerNames[key] == l
    case ImageID => exists i :: i in t.images && i == key
    case ImageName => exists i :: i in t.images && key in t.images[i].names
    case ContainerID => exists d :: d in t.containers && d == key
    case ContainerName => exists d :: d in t.containers && key in t.containers[d].names
    case WrittenLayer => exists d :: d in t.containers && t.containers[d].layerID == key
    case BeginsLayer => OnlyOneBegins(t.layers.Keys, key)
    case BeginsImage => OnlyOneBegins(t.images.Keys, key)
    case BeginsContainer => OnlyOneBegins(t.containers.Keys, key)
  }

  /** Each of them keeps the container if it is visited first. */
  lemma NoticedStays(t: Tables, c: Id, way: Way, rest: seq<Id>)
    requires c in t.containers && Noticed(t, c, way) && c !in rest
    ensures c in Walked(t, [c] + rest).containers
  {
    assert ExistsIn(t, t.containers[c].imageID);
    assert Walked(t, []) == t && [] + [c] + rest == [c] + rest;
    StaysOnceFound(t, [], c, rest);
  }

  /** What an image has keeps it in every order. */
  lemma {:induction false} NoticedByImageStays(t: Tables, c: Id, way: Way, order: seq<Id>)
    requires c in t.containers && way in {ImageID, ImageName, BeginsImage} && Noticed(t, c, way)
    ensures c in Walked(t, order).containers
  {
    if order != [] {
      NoticedByImageStays(t, c, way, order[..|order| - 1]);
      WalkedShrinks(t, order[..|order| - 1]);
      assert Noticed(Walked(t, order[..|order| - 1]), c, way);
    }
  }

  // ---- Containers without image that stay ----

  /** One that names a layer stays, in the one order there is. */
  lemma StrayContainerStays()
    ensures var t := Tables(map["l" := "", "w" := "l"], map[], map["c" := Container("l", "w", [])], map[]);
      Orders(["c"], t.containers.Keys) && Walked(t, ["c"]) == t && !NoOrphans(t)
  {
    var t := Tables(map["l" := "", "w" := "l"], map[], map["c" := Container("l", "w", [])], map[]);
    assert ["c"][..0] == [] && ["c"][0] == "c";
    assert "c" in t.containers;
  }

  /** So does one that names the layer another container writes to. */
  lemma NamesOthersLayerStays()
    ensures var t, order := SharesItsLayer(), ["c", "d"];
      Orders(order, t.containers.Keys) && "c" in Walked(t, order).containers && !NoOrphans(Walked(t, order))
  {
    var t := SharesItsLayer();
    assert "d" in t.containers && t.containers["d"].layerID == "x" && "c" in t.containers;
    assert "x" in ContainerLayers(t.containers);
    assert Walked(t, []) == t && "c" !in ["d"] && [] + ["c"] + ["d"] == ["c", "d"];
    StaysOnceFound(t, [], "c", ["d"]);
    WalkedShrinks(t, ["c", "d"]);
  }

  function SharesItsLayer(): Tables {
    var containers := map["c" := Container("x", "w", []), "d" := Container("i", "x", [])];
    Tables(map[], map["i" := Image("", [], [])], containers, map[])
  }

  /** Containers alone, without names, of which none writes to a layer with this ID or has this ID. */
  ghost predicate Alone(t: Tables, key: string) {
    && t.layers == map[] && t.images == map[] && key !in t.containers
    && forall d :: d in t.containers ==> t.containers[d].names == [] && t.containers[d].layerID != key
  }

  lemma AloneFinds(t: Tables, key: string)
    requires Alone(t, key)
    ensures ExistsIn(t, key) <==> Shortens(t.containers.Keys, key)
  {
  }

  /** The beginning of two container IDs is found once one of the two is gone: "c" goes if it is
      visited first, and stays if it is visited between the two. */
  lemma OrderDecides()
    ensures var t := BetweenTwo();
      && Orders(["c", "a1", "a2"], t.containers.Keys) && "c" !in Walked(t, ["c", "a1", "a2"]).containers
      && Orders(["a1", "c", "a2"], t.containers.Keys) && "c" in Walked(t, ["a1", "c", "a2"]).containers
  {
    GoesWhenFirst(BetweenTwo());
    StaysBetween(BetweenTwo());
    OrdersOfThree("c", "a1", "a2");
    OrdersOfThree("a1", "c", "a2");
    assert BetweenTwo().containers.Keys == {"a1", "a2", "c"};
  }

  function BetweenTwo(): Tables {
    var containers := map["a1" := Container("z", "v", []), "a2" := Container("z", "w", []),
      "c" := Container("a", "x", [])];
    Tables(map[], map[], containers, map[])
  }

  lemma OrdersOfThree(a: Id, b: Id, c: Id)
    requires a != b && a != c && b != c
    ensures Orders([a, b, c], {a, b, c})
  {
  }

  lemma GoesFirst(t: Tables, c: Id, rest: seq<Id>)
    requires c in t.containers && c !in rest && !ExistsIn(t, t.containers[c].imageID)
    ensures c !in Walked(t, [c] + rest).containers
  {
    WalkedOne(t, c);
    WalkedOn(t, [c], rest);
    WalkedShrinks(Visit(t, c), rest);
  }

  lemma WalkedOne(t: Tables, c: Id)
    ensures Walked(t, [c]) == Visit(t, c)
  {
    assert [c][..0] == [] && Walked(t, []) == t;
  }

  lemma FirstGoes(t: Tables)
    requires "c" in t.containers && !ExistsIn(t, t.containers["c"].imageID)
    ensures "c" !in Walked(t, ["c", "a1", "a2"]).containers
  {
    assert "c" !in ["a1", "a2"];
    GoesFirst(t, "c", ["a1", "a2"]);
    assert ["c"] + ["a1", "a2"] == ["c", "a1", "a2"];
  }

  lemma GoesWhenFirst(t: Tables)
    requires t == BetweenTwo()
    ensures "c" !in Walked(t, ["c", "a1", "a2"]).containers
  {
    TwoAreThere(t);
    FirstGoes(t);
  }

  lemma StaysBetween(t: Tables)
    requires t == BetweenTwo()
    ensures "c" in Walked(t, ["a1", "c", "a2"]).containers
  {
    TwoAreThere(t);
    OneGone(t);
    BetweenStays(t);
  }

  lemma TwoAreThere(t: Tables)
    requires t == BetweenTwo()
    ensures "c" in t.containers && t.containers["c"].imageID == "a" && !ExistsIn(t, "a")
  {
    assert "c" in t.containers && "a1" in t.containers && "a2" in t.containers;
    assert Alone(t, "a");
    AloneFinds(t, "a");
    TwoBegin(t.containers.Keys, "a", "a1", "a2");
  }

  lemma BetweenStays(t: Tables)
    requires "c" in t.containers && ExistsIn(Walked(t, ["a1"]), t.containers["c"].imageID)
    ensures "c" in Walked(t, ["a1", "c", "a2"]).containers
  {
    assert "c" !in ["a1"] && "c" !in ["a2"];
    StaysOnceFound(t, ["a1"], "c", ["a2"]);
    assert ["a1"] + ["c"] + ["a2"] == ["a1", "c", "a2"];
  }

  lemma OneGone(t: Tables)
    requires t == BetweenTwo()
    ensures var t1 := Walked(t, ["a1"]); "c" in t1.containers && ExistsIn(t1, "a")
  {
    WalkedOne(t, "a1");
    NoneThere(t);
    OneIsLeft(t, WithoutContainers(t, {"a1"}));
  }

  lemma NoneThere(t: Tables)
    requires t == BetweenTwo()
    ensures "a1" in t.containers && t.containers["a1"].imageID == "z" && !ExistsIn(t, "z")
  {
    assert "a1" in t.containers && Alone(t, "z");
    assert t.containers.Keys == {"a1", "a2", "c"};
    NoneBegins(t.containers.Keys);
    AloneFinds(t, "z");
  }

  lemma OneIsLeft(t: Tables, t1: Tables)
    requires t == BetweenTwo() && "a1" in t.containers && t1 == WithoutContainers(t, {"a1"})
    ensures "c" in t1.containers && ExistsIn(t1, "a")
  {
    assert "a2" in t1.containers && "c" in t1.containers;
    assert forall d :: d in t1.containers ==> d in t.containers && d != "a1";
    assert forall d :: d in t.containers ==> d == "a1" || d == "a2" || d == "c";
    assert "c"[0] == 'c' && "a"[0] == 'a';
    OneBegins(t1.containers.Keys, "a", "a2", "c");
  }

  lemma NoneBegins(ids: set<Id>)
    requires ids == {"a1", "a2", "c"}
    ensures !Shortens(ids, "z")
  {
    assert "a1"[0] == 'a' && "a2"[0] == 'a' && "c"[0] == 'c' && "z"[0] == 'z';
  }

  lemma TwoBegin(ids: set<Id>, key: string, a: Id, b: Id)
    requires a in ids && b in ids && a != b && key <= a && key <= b
    ensures !Shortens(ids, key)
  {
  }

  lemma OneBegins(ids: set<Id>, key: string, a: Id, b: Id)
    requires a in ids && (forall x :: x in ids ==> x == a || x == b) && key != "" && key <= a && !(key <= b)
    ensures Shortens(ids, key)
  {
    assert forall other :: other in ids && key <= other ==> other == a;
  }
}
