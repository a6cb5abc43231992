/** The store of layers, images and containers, and its integrity pass. Maps stand for the
    by-ID tables; the loops over them take the entries in an arbitrary order, which covers the
    order of a slice as well as Go's unordered map iteration. */
module Store {
  import opened Layers
  import opened Chains
  import opened Integrity
  import opened Options
  import opened Protection
  import opened Slices
  import opened Strays
  import Sweep
  import Text

  datatype Result = Ok | Err(error: Error)

  datatype Error =
    | NotALayer
    | NotAnImage
    | ImageUnknown
    | NotAContainer
    | ImageUsedByContainer
    | CheckFailed(layer: Id)
    | LayerUnknown
    | LayerHasChildren
    | LayerUsedByImage
    | LayerUsedByContainer
    | UnmountFailed
    | DriverRemoveFailed
    | RecordFailed    // the record is gone from memory, but not all of it from disk

  class Store {
    var layers: Forest
    var images: Images
    var containers: Containers
    var checkedLayers: set<Id>
    var checkData: Option<string>       // the file in the run root that keeps checkedLayers
    ghost var checks: seq<(Id, bool)>   // the CheckLayer calls so far, and which succeeded
    ghost var attempts: seq<Id>         // the DeleteLayer calls so far
    const layerNames: map<string, Id>   // the layer names and their layers; one counts while its layer is there

    // What the machine underneath does during one pass.
    const unmountFails: set<Id>  // layers the driver cannot unmount
    const removeFails: set<Id>   // layers whose record goes but whose data the driver cannot remove
    const recordFails: set<Id>   // images and containers whose record cannot be removed from disk
    const intact: set<Id>        // layers whose data match their digest
    const fileWorks: bool        // the cache file can be written

    ghost function Now(): Tables
      reads `layers, `images, `containers
    {
      Tables(layers, images, containers, layerNames)
    }

    predicate AllWorks() {
      unmountFails == removeFails == recordFails == {}
    }

    ghost function EnvOf(cache0: set<Id>): Env {
      Env(intact, unmountFails, removeFails, recordFails, cache0)
    }

    ghost function InUse(): set<Id>
      reads `images, `containers
    {
      OtherTops(images) + ContainerLayers(containers) + unmountFails
    }

    ghost function Blocked(): set<Id>
      reads `checkedLayers, `images, `containers
    {
      checkedLayers + InUse()
    }

    /** The layer store's Delete, seen from here: the record goes unless unmounting fails. */
    method DeleteRecord(id: Id) returns (r: Result)
      modifies this`layers
      ensures r == if id !in old(layers) then Err(LayerUnknown)
                   else if id in unmountFails then Err(UnmountFailed)
                   else if id in removeFails then Err(DriverRemoveFailed)
                   else Ok
      ensures layers == if id in unmountFails then old(layers) else old(layers) - {id}
    {
      if id !in layers {
        return Err(LayerUnknown);
      }
      if id in unmountFails {
        return Err(UnmountFailed);
      }
      layers := layers - {id};
      return if id in removeFails then Err(DriverRemoveFailed) else Ok;
    }

    method DeleteLayer(id: Id) returns (r: Result)
      modifies this`layers, this`attempts
      ensures attempts == old(attempts) + [id]
      ensures id !in old(layers) ==> r == Err(NotALayer)
      ensures layers == Sweep.AfterAttempt(old(layers), InUse(), id)
      ensures r.Ok? ==> layers == old(layers) - {id} && id in old(layers)
    {
      attempts := attempts + [id];
      if id !in layers {
        return Err(NotALayer);
      }
      if exists l :: l in layers && layers[l] == id {
        ghost var l :| l in layers && layers[l] == id;
        assert l in Children(layers, id);
        return Err(LayerHasChildren);
      }
      if exists i :: i in images && (images[i].topLayer == id || id in images[i].mappedTopLayers) {
        return Err(LayerUsedByImage);
      }
      if exists c :: c in containers && containers[c].layerID == id {
        return Err(LayerUsedByContainer);
      }
      r := DeleteRecord(id);
    }

    /** Which unchecked layers there are, and which of them have an unchecked child. */
    method MarkUnchecked() returns (toBeDeleted: set<Id>, haveChildren: map<Id, bool>)
      ensures toBeDeleted == layers.Keys - checkedLayers
      ensures haveChildren.Keys == toBeDeleted
      ensures forall id :: id in haveChildren ==> (haveChildren[id] <==> !(Children(layers, id) <= checkedLayers))
    {
      toBeDeleted := {};
      var todo := layers.Keys;
      while todo != {}
        invariant todo <= layers.Keys
        invariant toBeDeleted == layers.Keys - todo - checkedLayers
      {
        var l :| l in todo;
        todo := todo - {l};
        if l !in checkedLayers {
          toBeDeleted := toBeDeleted + {l};
        }
      }
      haveChildren := map[];
      todo := layers.Keys;
      while todo != {}
        invariant todo <= layers.Keys
        invariant layers.Keys - todo - checkedLayers <= haveChildren.Keys <= toBeDeleted
        invariant forall id :: id in haveChildren ==>
          (haveChildren[id] <==> exists c :: c in Children(layers, id) && c !in todo && c !in checkedLayers)
        invariant forall c :: c in layers && c !in todo && c !in checkedLayers && layers[c] in toBeDeleted ==>
          layers[c] in haveChildren
      {
        var l :| l in todo;
        todo := todo - {l};
        if l !in checkedLayers {
          if l !in haveChildren {
            haveChildren := haveChildren[l := false];
          }
          if layers[l] in toBeDeleted {
            haveChildren := haveChildren[layers[l] := true];
            assert l in Children(layers, layers[l]);
          }
        }
      }
    }

    /** One turn of a walk: try to delete the layer and name the next one. */
    method DeleteStep(ghost start: Id, ghost last: set<Id>, id: Id, ghost forest: Forest, ghost blocked: set<Id>,
                      ghost seen: set<Id>)
      returns (parent: Id)
      requires blocked == Blocked()
      requires id in forest && id !in checkedLayers && id !in seen
      requires Sweep.Walking(forest, checkedLayers, blocked, start, last, id, seen, layers, attempts)
      modifies this`layers, this`attempts
      ensures Sweep.Walking(forest, checkedLayers, blocked, start, {id}, parent, seen + {id}, layers, attempts)
      ensures checkedLayers == old(checkedLayers) && Blocked() == blocked
    {
      Sweep.WalkStep(forest, checkedLayers, blocked, start, last, id, seen, layers, attempts);
      parent := layers[id];
      assert id in blocked <==> id in InUse();
      var _ := DeleteLayer(id);
    }

    /** One walk towards the root, from a layer without unchecked children. */
    method DeleteUpwards(start: Id, toBeDeleted: set<Id>, ghost forest: Forest, ghost blocked: set<Id>,
                         ghost seen: set<Id>)
      returns (rest: set<Id>, ghost seen': set<Id>)
      requires blocked == Blocked()
      requires toBeDeleted == forest.Keys - checkedLayers - seen
      requires Sweep.Walking(forest, checkedLayers, blocked, start, {}, start, seen, layers, attempts)
      modifies this`layers, this`attempts
      ensures rest == forest.Keys - checkedLayers - seen'
      ensures Sweep.WalkEnded(forest, checkedLayers, blocked, start, seen, seen', layers, attempts)
      ensures checkedLayers == old(checkedLayers) && Blocked() == blocked
    {
      rest, seen' := toBeDeleted, seen;
      var id := start;
      ghost var last: set<Id> := {};
      while id in rest
        invariant checkedLayers == old(checkedLayers) && blocked == Blocked()
        invariant rest == forest.Keys - checkedLayers - seen'
        invariant seen <= seen'
        invariant Sweep.Walking(forest, checkedLayers, blocked, start, last, id, seen', layers, attempts)
        decreases |rest|
      {
        rest := rest - {id};
        var parent := DeleteStep(start, last, id, forest, blocked, seen');
        last, seen' := {id}, seen' + {id};
        id := parent;
      }
      Sweep.WalkStops(forest, checkedLayers, blocked, start, last, id, seen, seen', layers, attempts);
    }

    /** Deletes unchecked layers from top to bottom. Whatever order the walks start in, the
        layers left are all but the removable ones. */
    method DeleteUncheckedLayers()
      modifies this`layers, this`attempts
      ensures layers == SweptOnce(old(layers), Blocked())
      ensures forall i, j :: 0 <= i < j < |attempts| ==> attempts[i] != attempts[j]
      ensures forall x :: x in attempts ==> x in old(layers) && x !in checkedLayers
      ensures forall x :: x in old(layers) && x !in checkedLayers && Children(old(layers), x) <= checkedLayers ==>
        x in attempts
      ensures forall x :: x in attempts && old(layers)[x] in old(layers) && old(layers)[x] !in checkedLayers ==>
        old(layers)[x] in attempts
    {
      ghost var forest, checked, blocked := layers, checkedLayers, Blocked();
      var toBeDeleted, haveChildren := MarkUnchecked();
      ghost var seen: set<Id> := {};
      attempts := [];
      var todo := haveChildren.Keys;
      while todo != {}
        invariant checkedLayers == checked && Blocked() == blocked
        invariant toBeDeleted == forest.Keys - checked - seen
        invariant Sweep.Sweeping(forest, checked, blocked, haveChildren, todo, seen, layers, attempts)
      {
        var id :| id in todo;
        ghost var seen0, now0, attempts0 := seen, layers, attempts;
        if !haveChildren[id] {
          toBeDeleted, seen := DeleteUpwards(id, toBeDeleted, forest, blocked, seen);
        }
        Sweep.SweepingNext(forest, checked, blocked, haveChildren, todo, id,
                           seen0, seen, now0, layers, attempts0, attempts);
        todo := todo - {id};
      }
      Sweep.SweptAll(forest, checked, blocked, seen, layers);
    }

    // ---- Checking images ----

    /** Whether CheckLayer accepts the layer. */
    predicate Verifies(l: Id)
      reads `layers
    {
      l in layers && l in intact
    }

    method GetCheckedLayers()
      modifies this`checkedLayers
      ensures checkedLayers == Cached(checkData)
    {
      checkedLayers := {};
      if checkData.Some? {
        var lines := Text.Split(checkData.value, '\n');
        for n := 0 to |lines|
          invariant checkedLayers == Text.Trims(lines[..n])
        {
          Text.TrimsConcat(lines[..n], [lines[n]]);
          assert lines[..n + 1] == lines[..n] + [lines[n]];
          assert Text.Trims([lines[n]]) == {Text.TrimSpace(lines[n])} by {
            assert [lines[n]][0] == lines[n];
          }
          checkedLayers := checkedLayers + {Text.TrimSpace(lines[n])};
        }
        assert lines[..|lines|] == lines;
      }
    }

    /** If the file cannot be written, it may take a part of the line or nothing, and nobody is told. */
    method AddCheckedLayer(id: Id)
      modifies this`checkedLayers, this`checkData
      ensures checkedLayers == old(checkedLayers) + {id}
      ensures fileWorks && old(InStep()) && PlainId(id) ==> InStep()
    {
      checkedLayers := checkedLayers + {id};
      var text := if checkData.Some? then checkData.value else "";
      if old(InStep()) && PlainId(id) {
        if checkData.Some? {
          Text.LinesAppend(text, id);
        } else {
          Text.LinesAppend("", id);
          Text.LinesEmpty();
        }
      }
      var line := id + "\n";
      var written: int := *;
      if fileWorks {
        checkData := Some(text + id + "\n");
        assert |line| > 0 && (text + id + "\n")[|text + id + "\n"| - 1] == '\n';
      } else if 0 <= written <= |line| {
        checkData := Some(text + line[..written]);
      }
    }

    /** The file and the table in memory hold the same layers, and the file ends a line. */
    ghost predicate InStep()
      reads `checkedLayers, `checkData
    {
      Cached(checkData) + {""} == checkedLayers + {""} && EndsLine(checkData)
    }

    /** No layer is checked again after a check it passed. */
    ghost predicate NoRework()
      reads `checkedLayers, `checks
    {
      (forall n :: 0 <= n < |checks| && checks[n].1 ==> checks[n].0 in checkedLayers) && PassedOnce(checks)
    }

    /** Every layer from `top` to the root. */
    method LayersToCheck(top: Id) returns (layersToCheck: seq<Id>)
      requires Rooted(layers, top)
      ensures layersToCheck == ChainOf(layers, top)
    {
      ghost var chain := ChainOf(layers, top);
      layersToCheck := [];
      var layer := top;
      assert chain[0..] == chain;
      while layer != ""
        invariant |layersToCheck| <= |chain| && layersToCheck == chain[..|layersToCheck|]
        invariant IsChain(layers, layer, chain[|layersToCheck|..])
        decreases |chain| - |layersToCheck|
      {
        var parent := "";
        if layer in layers {
          parent := layers[layer];
        }
        ghost var n := |layersToCheck|;
        assert chain[n..][1..] == chain[n + 1..];
        layersToCheck := layersToCheck + [layer];
        layer := parent;
      }
    }

    /** CheckImage's second loop. */
    method CheckLayers(layersToCheck: seq<Id>) returns (r: Result)
      modifies this`checkedLayers, this`checkData, this`checks
      ensures var good := old(checkedLayers) + layers.Keys * intact;
        && (r.Ok? <==> forall l :: l in layersToCheck ==> l in good)
        && checkedLayers == old(checkedLayers) + set l | l in layersToCheck[..Accepted(layersToCheck, good, 0)]
      ensures FreshChecks(old(checks), checks, old(checkedLayers))
      ensures old(NoRework()) ==> NoRework()
      ensures fileWorks && old(InStep()) && (forall l :: l in layersToCheck ==> PlainId(l)) ==> InStep()
    {
      ghost var good := checkedLayers + layers.Keys * intact;
      for n := 0 to |layersToCheck|
        invariant checkedLayers == old(checkedLayers) + set l | l in layersToCheck[..n]
        invariant forall m :: 0 <= m < n ==> layersToCheck[m] in good
        invariant FreshChecks(old(checks), checks, old(checkedLayers))
        invariant old(NoRework()) ==> NoRework()
        invariant fileWorks && old(InStep()) && (forall l :: l in layersToCheck ==> PlainId(l)) ==> InStep()
      {
        var layer := layersToCheck[n];
        assert layersToCheck[..n + 1] == layersToCheck[..n] + [layer];
        r := CheckUnlessCached(layer);
        if !r.Ok? {
          assert layer in layersToCheck && layer !in good;
          return;
        }
      }
      assert layersToCheck[..|layersToCheck|] == layersToCheck;
      r := Ok;
    }

    method CheckImage(id: Id) returns (r: Result)
      requires id in images ==> Rooted(layers, images[id].topLayer)
      modifies this`checkedLayers, this`checkData, this`checks
      ensures id !in images ==> r == Err(ImageUnknown) && checkedLayers == old(checkedLayers)
      ensures id in images ==> var chain := ChainOf(layers, images[id].topLayer);
        && (r.Ok? <==> forall l :: l in chain ==> l in old(checkedLayers) || Verifies(l))
        && checkedLayers ==
           old(checkedLayers) + set l | l in chain[..Accepted(chain, old(checkedLayers) + layers.Keys * intact, 0)]
      ensures FreshChecks(old(checks), checks, old(checkedLayers))
      ensures old(NoRework()) ==> NoRework()
      ensures fileWorks && old(InStep())
              && (id in images ==> forall l :: l in ChainOf(layers, images[id].topLayer) ==> PlainId(l)) ==>
        InStep()
    {
      if id !in images {
        return Err(ImageUnknown);
      }
      var layersToCheck := LayersToCheck(images[id].topLayer);
      r := CheckLayers(layersToCheck);
    }

    /** One turn of CheckImage's loop. */
    method CheckUnlessCached(layer: Id) returns (r: Result)
      modifies this`checkedLayers, this`checkData, this`checks
      ensures r.Ok? <==> layer in old(checkedLayers) || Verifies(layer)
      ensures checkedLayers == if r.Ok? then old(checkedLayers) + {layer} else old(checkedLayers)
      ensures FreshChecks(old(checks), checks, old(checkedLayers))
      ensures old(NoRework()) ==> NoRework()
      ensures fileWorks && old(InStep()) && PlainId(layer) ==> InStep()
    {
      r := Ok;
      if layer !in checkedLayers {
        r := CheckLayer(layer);
        if r.Ok? {
          AddCheckedLayer(layer);
        }
      }
    }

    method CheckLayer(l: Id) returns (r: Result)
      modifies this`checks
      ensures r == if Verifies(l) then Ok else Err(CheckFailed(l))
      ensures checks == old(checks) + [(l, Verifies(l))]
    {
      checks := checks + [(l, Verifies(l))];
      r := if Verifies(l) then Ok else Err(CheckFailed(l));
    }

    // ---- Deleting images and containers ----

    /** Deletes the image record and then the layers that only this image needs, failures of
        single layers being logged and skipped. */
    method DeleteImage(id: Id) returns (r: Result)
      requires "" !in layers && (id in images ==> Rooted(layers, images[id].topLayer))
      modifies this`layers, this`images
      ensures r == if id !in old(images) then Err(NotAnImage)
                   else if exists c :: c in containers && containers[c].imageID == id then Err(ImageUsedByContainer)
                   else if id in recordFails then Err(RecordFailed)
                   else Ok
      ensures images == if r.Ok? || r == Err(RecordFailed) then old(images) - {id} else old(images)
      ensures layers == if r.Ok? then old(layers) - (Released(old(Now()), id) - unmountFails)
                        else old(layers)
      // Which these are, in terms of the tables alone.
      ensures r.Ok? && AllRooted(old(Now())) ==>
        LosesJust(old(Now()), id, unmountFails, layers)
    {
      if id !in images {
        return Err(NotAnImage);
      }
      if exists c :: c in containers && containers[c].imageID == id {
        return Err(ImageUsedByContainer);
      }
      ghost var t := Now();
      var image := images[id];
      images := images - {id};
      if id in recordFails {
        return Err(RecordFailed);
      }
      var layersToRemove := LayersToRemove(image, OtherTops(images));
      assert (set l | l in layersToRemove) == Released(t, id);
      DeleteRecords(layersToRemove);
      if AllRooted(t) {
        ReleasedAreLost(t, id, unmountFails);
      }
      r := Ok;
    }

    /** Deletes layers one by one, going on when one fails. */
    method DeleteRecords(ids: seq<Id>)
      modifies this`layers
      ensures layers == old(layers) - ((set l | l in ids) - unmountFails)
    {
      for n := 0 to |ids|
        invariant layers == old(layers) - ((set l | l in ids[..n]) - unmountFails)
      {
        assert ids[..n + 1] == ids[..n] + [ids[n]];
        var _ := DeleteRecord(ids[n]);
      }
      assert ids[..|ids|] == ids;
    }

    /** The walk up from the image's top layer that collects what can go. */
    method LayersToRemove(image: Image, otherImagesByTopLayer: set<Id>) returns (layersToRemove: seq<Id>)
      requires "" !in layers && Rooted(layers, image.topLayer)
      ensures var chain := ChainOf(layers, image.topLayer);
        var k := ReleasedFrom(layers, StopsAt(containers, otherImagesByTopLayer), image.mappedTopLayers, chain, 0);
        forall l :: l in layersToRemove <==> l in chain[..k] || (k > 0 && l in image.mappedTopLayers)
    {
      ghost var chain := ChainOf(layers, image.topLayer);
      ghost var stops := StopsAt(containers, otherImagesByTopLayer);
      layersToRemove := [];
      var layer, lastRemoved := image.topLayer, "";
      ghost var n := 0;
      assert chain[0..] == chain;
      while layer != ""
        invariant n <= |chain| && IsChain(layers, layer, chain[n..])
        invariant lastRemoved == if n == 0 then "" else chain[n - 1]
        invariant ReleasedFrom(layers, stops, image.mappedTopLayers, chain, 0) ==
                  ReleasedFrom(layers, stops, image.mappedTopLayers, chain, n)
        invariant forall l :: l in layersToRemove <==> l in chain[..n] || (n > 0 && l in image.mappedTopLayers)
        decreases |chain| - n
      {
        ChainSuffix(layers, image.topLayer, chain, n);
        if n > 0 {
          ChainDistinct(layers, image.topLayer, chain, 0, n);
        }
        if ContainerFound(containers, layer) || layer in otherImagesByTopLayer {
          break;
        }
        var parent := "";
        if layer in layers {
          parent := layers[layer];
        }
        var layersToCheck := [layer] + if layer == image.topLayer then image.mappedTopLayers else [];
        if exists l, child :: l in layersToCheck && child in Children(layers, l) && child != lastRemoved {
          assert !Releasable(layers, stops, image.mappedTopLayers, chain, n) by {
            var l, child :| l in layersToCheck && child in Children(layers, l) && child != lastRemoved;
          }
          break;
        }
        assert Releasable(layers, stops, image.mappedTopLayers, chain, n) by {
          assert layersToCheck[0] == layer;
          forall l, child | l in layersToCheck && child in Children(layers, l)
            ensures child == lastRemoved
          {
          }
        }
        assert chain[..n + 1] == chain[..n] + [layer];
        assert chain[n..][1..] == chain[n + 1..];
        lastRemoved := layer;
        layersToRemove := layersToRemove + [lastRemoved];
        if layer == image.topLayer {
          layersToRemove := layersToRemove + image.mappedTopLayers;
        }
        layer := parent;
        n := n + 1;
      }
    }

    method DeleteContainer(id: Id) returns (r: Result)
      modifies this`layers, this`containers
      ensures id in old(containers) && AllWorks() ==> r.Ok?
      ensures containers == if r.Ok? || r == Err(RecordFailed) then old(containers) - {id} else old(containers)
      ensures layers == old(layers) || (id in old(containers) && layers == old(layers) - {old(containers)[id].layerID})
      ensures r.Ok? || r == Err(RecordFailed) ==>
        id in old(containers) && layers == old(layers) - {old(containers)[id].layerID}
    {
      if id !in containers {
        return Err(NotAContainer);
      }
      var layerID := containers[id].layerID;
      if layerID in layers {
        r := DeleteRecord(layerID);
        if !r.Ok? {
          return;
        }
      }
      containers := containers - {id};
      r := if id in recordFails then Err(RecordFailed) else Ok;
    }

    /** Deletes the containers of an image, up to the first one that resists. */
    method DeleteContainersByImage(id: Id) returns (r: Result)
      modifies this`layers, this`containers
      ensures Submap(containers, old(containers)) && Submap(layers, old(layers))
      // Only containers of the image go, and only their layers.
      ensures forall c :: c in old(containers) && old(containers)[c].imageID != id ==> c in containers
      ensures old(layers).Keys - layers.Keys <= LayersOfContainers(old(Now()), ContainersOf(old(Now()), id))
      ensures r.Ok? ==> Now() == WithoutContainersOf(old(Now()), id)
      ensures r.Ok? ==> forall c :: c in containers ==> containers[c].imageID != id
      ensures AllWorks() ==> r.Ok?
    {
      ghost var t := Now();
      ghost var done: set<Id> := {};
      var todo := containers.Keys;
      while todo != {}
        invariant todo <= containers.Keys && done <= ContainersOf(t, id)
        invariant containers == t.containers - done && layers == t.layers - LayersOfContainers(t, done)
        invariant ContainersOf(t, id) - done <= todo
      {
        var c :| c in todo;
        todo := todo - {c};
        if containers[c].imageID == id {
          r := DeleteContainer(c);
          assert LayersOfContainers(t, done + {c}) == LayersOfContainers(t, done) + {t.containers[c].layerID};
          assert c in ContainersOf(t, id);
          if !r.Ok? {
            return;
          }
          done := done + {c};
        }
      }
      assert done == ContainersOf(t, id);
      r := Ok;
    }

    /** Whether looking it up finds a layer, an image or a container. */
    predicate Exists(key: string)
      reads `layers, `images, `containers
    {
      ExistsIn(Tables(layers, images, containers, layerNames), key)
    }

    // ---- The whole pass ----

    /** An image that failed its check goes, after its containers. */
    method DropImage(id: Id, ghost t0: Tables, ghost cache0: set<Id>)
      requires Walkable(t0) && Walkable(Now()) && id in images
      modifies this`layers, this`images, this`containers
      ensures Walkable(Now()) && old(images) - {id} == images - {id} && Submap(layers, old(layers))
      ensures WellFormed(t0) && ChainsKept(t0, old(Now())) ==> Dropped(t0, old(Now()), Now(), EnvOf(cache0), id)
    {
      ghost var t1 := Now();
      var _ := DeleteContainersByImage(id);
      StaysWalkable(t1, Now());
      ghost var t2 := Now();
      var r := DeleteImage(id);
      StaysWalkable(t2, Now());
      if WellFormed(t0) && ChainsKept(t0, t1) {
        DroppingKeeps(t0, t1, t2, Now(), EnvOf(cache0), id, r.Ok? || r == Err(RecordFailed));
      }
    }

    /** One turn of the first loop. */
    method CheckOrDrop(id: Id, ghost t0: Tables, ghost c: Course, ghost cache0: set<Id>) returns (ghost c': Course)
      requires Walkable(t0) && Walkable(Now()) && id in images
      modifies this`layers, this`images, this`containers, this`checkedLayers, this`checkData, this`checks
      ensures Walkable(Now()) && old(images) - {id} == images - {id} && Submap(layers, old(layers))
      ensures InPass(t0, old(Now()), c, cache0, old(checkedLayers)) && id in c.todo ==>
        && InPass(t0, Now(), c', cache0, checkedLayers) && c'.todo == c.todo - {id}
        && (fileWorks && old(InStep()) && PlainChains(t0) ==> InStep())
      ensures old(NoRework()) ==> NoRework()
      ensures FreshChecks(old(checks), checks, old(checkedLayers)) && old(checkedLayers) <= checkedLayers
    {
      ghost var t := Now();
      ghost var inPass := InPass(t0, t, c, cache0, checkedLayers) && id in c.todo;
      if inPass {
        StaysWellFormed(t0, t);
        CacheBounds(t0, EnvOf(cache0), t0.images.Keys - c.todo);
        CheckVerdict(t0, t, EnvOf(cache0), id, checkedLayers);
      }
      c' := c;
      var r := CheckImage(id);
      if r.Ok? {
        if inPass {
          CheckingPassed(t0, t, EnvOf(cache0), c, id);
          c' := Passed(c, id, AcceptedOf(t0, EnvOf(cache0), id));
        }
      } else {
        DropImage(id, t0, cache0);
        if inPass {
          CheckingFailed(t0, t, Now(), EnvOf(cache0), c, id);
          c' := Failed(c, id, AcceptedOf(t0, EnvOf(cache0), id));
        }
      }
    }

    ghost predicate InPass(t0: Tables, t: Tables, c: Course, cache0: set<Id>, cache: set<Id>) {
      WellFormed(t0) && Checking(t0, t, EnvOf(cache0), c) && c.cache == cache
    }

    /** The first loop: check every image, and drop those that fail. */
    method CheckImages(ghost t0: Tables) returns (ghost c: Course)
      requires Walkable(t0) && Now() == t0
      requires NoRework()
      modifies this`layers, this`images, this`containers, this`checkedLayers, this`checkData, this`checks
      ensures WellFormed(t0) ==>
        && InPass(t0, Now(), c, old(checkedLayers), checkedLayers) && c.todo == {}
        && (fileWorks && old(InStep()) && PlainChains(t0) ==> InStep())
      ensures NoRework()
      ensures FreshChecks(old(checks), checks, old(checkedLayers)) && old(checkedLayers) <= checkedLayers
      ensures Submap(layers, t0.layers)
    {
      ghost var cache0 := checkedLayers;
      var todo := images.Keys;
      c := Course(todo, {}, [], cache0);
      CheckingStarts(t0, EnvOf(cache0));
      while todo != {}
        invariant Walkable(Now()) && todo <= images.Keys && Submap(layers, t0.layers)
        invariant WellFormed(t0) ==>
          && InPass(t0, Now(), c, cache0, checkedLayers) && c.todo == todo
          && (fileWorks && old(InStep()) && PlainChains(t0) ==> InStep())
        invariant NoRework()
        invariant FreshChecks(old(checks), checks, cache0) && cache0 <= checkedLayers
      {
        var id :| id in todo;
        ghost var others := images - {id};
        c := CheckOrDrop(id, t0, c, cache0);
        todo := todo - {id};
        assert todo <= others.Keys && others == images - {id};
      }
    }

    /** One turn of the second loop. */
    method CheckContainer(c: Id) returns (found: bool)
      requires c in containers
      modifies this`layers, this`containers
      ensures found == ExistsIn(old(Now()), old(containers)[c].imageID)
      ensures found ==> Now() == old(Now())
      ensures containers == old(containers) || containers == old(containers) - {c}
      ensures layers == old(layers) || layers == old(layers) - {old(containers)[c].layerID}
      ensures AllWorks() && !found ==> Now() == WithoutContainers(old(Now()), {c})
    {
      found := Exists(containers[c].imageID);
      if !found {
        var _ := DeleteContainer(c);
      }
    }

    /** The second loop: delete the containers whose image is not there. */
    method CheckContainers() returns (ghost order: seq<Id>)
      modifies this`layers, this`containers
      ensures Integrity.ContainersChecked(old(Now()), Now(), EnvOf({}), order)
    {
      ghost var t := Now();
      order := [];
      var todo := containers.Keys;
      while todo != {}
        invariant Visited(t, Now(), EnvOf({}), order, todo)
      {
        var c :| c in todo;
        ghost var before := Now();
        var found := CheckContainer(c);
        VisitNext(t, before, Now(), EnvOf({}), order, todo, c, found);
        order, todo := order + [c], todo - {c};
      }
    }

    method IntegrationCheck() returns (ghost p: Pass)
      requires Walkable(Now())
      modifies this
      ensures WellFormed(old(Now())) ==>
        && PassOutcome(old(Now()), Now(), EnvOf(Cached(old(checkData))), p)
        && (fileWorks && old(EndsLine(checkData)) && PlainChains(old(Now())) ==>
              Cached(checkData) + {""} == p.cache + {""} && EndsLine(checkData))
      // The sweep takes the removable layers and no others.
      ensures layers == SweptOnce(p.unswept, p.cache + Uses(Now()) + unmountFails)
      ensures Submap(p.unswept, old(layers)) && Cached(old(checkData)) <= p.cache
      // No layer is checked again after it was found good, in this pass or an earlier one.
      ensures FreshChecks([], checks, Cached(old(checkData))) && PassedOnce(checks)
      ensures checkedLayers == {}
    {
      checks := [];
      GetCheckedLayers();
      p := CheckAll();
      checkedLayers := {};
    }

    /** The pass with the cache at hand. */
    method CheckAll() returns (ghost p: Pass)
      requires Walkable(Now()) && NoRework()
      modifies this
      ensures WellFormed(old(Now())) ==>
        && PassOutcome(old(Now()), Now(), EnvOf(old(checkedLayers)), p)
        && (fileWorks && old(InStep()) && PlainChains(old(Now())) ==>
              Cached(checkData) + {""} == p.cache + {""} && EndsLine(checkData))
      ensures layers == SweptOnce(p.unswept, p.cache + Uses(Now()) + unmountFails)
      ensures Submap(p.unswept, old(layers)) && old(checkedLayers) <= p.cache
      ensures FreshChecks(old(checks), checks, old(checkedLayers)) && PassedOnce(checks)
    {
      ghost var t0, env := Now(), EnvOf(checkedLayers);
      ghost var c := CheckImages(t0);
      ghost var mid, cache := Now(), checkedLayers;
      ghost var order, unswept := CheckContainersAndSweep();
      p := Pass(c.passed, c.drops, mid, order, unswept, cache);
      if WellFormed(t0) {
        PassConcluded(t0, Now(), env, c, p);
      }
    }

    method CheckContainersAndSweep() returns (ghost order: seq<Id>, ghost unswept: Forest)
      modifies this`layers, this`containers, this`attempts
      ensures Integrity.ContainersChecked(old(Now()), Now().(layers := unswept), EnvOf({}), order)
      ensures layers == SweptOnce(unswept, checkedLayers + Uses(Now()) + unmountFails)
    {
      order := CheckContainers();
      unswept := layers;
      DeleteUncheckedLayers();
      assert Blocked() == checkedLayers + Uses(Now()) + unmountFails;
    }
  }

  ghost predicate PassedOnce(checks: seq<(Id, bool)>) {
    forall m, n :: 0 <= m < n < |checks| && checks[m].1 ==> checks[m].0 != checks[n].0
  }

  /** The checks made since `before` were all of layers outside the cache. */
  ghost predicate FreshChecks(before: seq<(Id, bool)>, after: seq<(Id, bool)>, cache: set<Id>) {
    before <= after && forall n :: |before| <= n < |after| ==> after[n].0 !in cache
  }

  ghost predicate EndsLine(data: Option<string>) {
    data.Some? && data.value != "" ==> data.value[|data.value| - 1] == '\n'
  }

  ghost predicate PlainChains(t: Tables)
    requires AllRooted(t)
  {
    forall i, l :: i in t.images && l in Chain(t, i) ==> PlainId(l)
  }

  function Cached(data: Option<string>): set<Id> {
    match data
    case None => {}
    case Some(text) => Text.Lines(text)
  }

  ghost predicate PlainId(id: Id) {
    '\n' !in id && Text.Trimmed(id)
  }
}
