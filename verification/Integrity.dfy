/** The integrity pass on plain tables: which images pass, what dropping one and walking over the
    containers does, and what a whole pass comes to. */
module Integrity {
  import opened Layers
  import opened Chains
  import opened Protection
  import opened Slices
  import opened Strays

  /** What the machine underneath does during one pass, and what the cache file held before it. */
  datatype Env = Env(intact: set<Id>, unmountFails: set<Id>, removeFails: set<Id>, recordFails: set<Id>,
                     cache0: set<Id>)

  predicate AllWorks(env: Env) {
    env.unmountFails == env.removeFails == env.recordFails == {}
  }

  // ---- The verdict on an image ----

  /** The layers that a check made in the beginning would accept. */
  function Good(t0: Tables, env: Env): set<Id> {
    env.cache0 + t0.layers.Keys * env.intact
  }

  ghost predicate Passes(t0: Tables, env: Env, id: Id)
    requires AllRooted(t0) && id in t0.images
  {
    forall l :: l in Chain(t0, id) ==> l in Good(t0, env)
  }

  /** Every layer from the image's top to the root is there and its data match. */
  ghost predicate FullyVerified(t: Tables, intact: set<Id>, id: Id)
    requires AllRooted(t) && id in t.images
  {
    forall l :: l in Chain(t, id) ==> l in t.layers && l in intact
  }

  /** Of the layers on chains, the cache holds only such as would verify. */
  ghost predicate CacheSound(cache: set<Id>, intact: set<Id>, t: Tables)
    requires AllRooted(t)
  {
    forall i, l :: i in t.images && l in Chain(t, i) && l in cache ==> l in t.layers && l in intact
  }

  /** How far up the chain, from its top at index 0, every layer is among the good ones. */
  ghost function Accepted(chain: seq<Id>, good: set<Id>, i: nat): (n: nat)
    requires i <= |chain|
    ensures i <= n <= |chain|
    ensures forall j :: i <= j < n ==> chain[j] in good
    ensures n < |chain| ==> chain[n] !in good
    decreases |chain| - i
  {
    if i < |chain| && chain[i] in good then Accepted(chain, good, i + 1) else i
  }

  lemma {:induction false} AcceptedSame(chain: seq<Id>, a: set<Id>, b: set<Id>, i: nat)
    requires i <= |chain| && forall l :: l in chain ==> (l in a <==> l in b)
    ensures Accepted(chain, a, i) == Accepted(chain, b, i)
    decreases |chain| - i
  {
    if i < |chain| {
      AcceptedSame(chain, a, b, i + 1);
    }
  }

  /** What checking the image adds to the cache. */
  ghost function AcceptedOf(t0: Tables, env: Env, id: Id): set<Id>
    requires AllRooted(t0) && id in t0.images
  {
    set l | l in Chain(t0, id)[..Accepted(Chain(t0, id), Good(t0, env), 0)]
  }

  /** The cache after these images were checked. */
  ghost function CacheAfter(t0: Tables, env: Env, ids: set<Id>): set<Id>
    requires AllRooted(t0) && ids <= t0.images.Keys
  {
    env.cache0 + set i, l | i in ids && l in AcceptedOf(t0, env, i) :: l
  }

  /** In the middle of the pass the check gives the verdict of the beginning, and adds to the
      cache what it would have added then. */
  lemma CheckVerdict(t0: Tables, t: Tables, env: Env, id: Id, cache: set<Id>)
    requires AllRooted(t0) && id in t.images && ChainsKept(t0, t)
    requires env.cache0 <= cache <= Good(t0, env)
    ensures var now := cache + t.layers.Keys * env.intact;
      && Accepted(Chain(t0, id), now, 0) == Accepted(Chain(t0, id), Good(t0, env), 0)
      && ((forall l :: l in Chain(t0, id) ==> l in now) <==> Passes(t0, env, id))
  {
    var now := cache + t.layers.Keys * env.intact;
    assert Kept(t0.layers, t.layers, Chain(t0, id));
    assert forall l :: l in Chain(t0, id) ==> (l in now <==> l in Good(t0, env));
    AcceptedSame(Chain(t0, id), now, Good(t0, env), 0);
  }

  /** With a sound cache the verdict is that of a full check. */
  lemma SoundVerdict(t0: Tables, env: Env, id: Id)
    requires AllRooted(t0) && id in t0.images && CacheSound(env.cache0, env.intact, t0)
    ensures Passes(t0, env, id) <==> FullyVerified(t0, env.intact, id)
  {
    if Passes(t0, env, id) {
      forall l | l in Chain(t0, id)
        ensures l in t0.layers && l in env.intact
      {
        assert l in Good(t0, env);
      }
    }
  }

  // ---- Dropping images, when every deletion works ----

  function ContainersOf(t: Tables, id: Id): set<Id> {
    set c | c in t.containers && t.containers[c].imageID == id
  }

  function WithoutContainersOf(t: Tables, id: Id): Tables {
    WithoutContainers(t, ContainersOf(t, id))
  }

  ghost function Drop(t: Tables, id: Id): Tables {
    var t1 := WithoutContainersOf(t, id);
    if id in t1.images && Rooted(t1.layers, t1.images[id].topLayer)
    then t1.(layers := t1.layers - Released(t1, id), images := t1.images - {id}) else t1
  }

  ghost function DropAll(t: Tables, ids: seq<Id>): Tables {
    if ids == [] then t else Drop(DropAll(t, ids[..|ids| - 1]), ids[|ids| - 1])
  }

  /** No container of the image writes to a layer that is there and on the chain of the other. */
  ghost predicate ContainersOff(t: Tables, id: Id, j: Id)
    requires AllRooted(t) && j in t.images
  {
    forall c :: c in ContainersOf(t, id) ==>
      t.containers[c].layerID !in t.layers || t.containers[c].layerID !in Chain(t, j)
  }

  /** Dropping an image leaves the chain of another as it was exactly if none of the image's
      containers writes to a layer of that chain, and the chain's top is not released with the
      image as one of its mapped top layers. */
  lemma DropSparesIff(t: Tables, id: Id, j: Id)
    requires Walkable(t) && id in t.images && j in t.images && id != j
    ensures var t1, top := WithoutContainersOf(t, id), t.images[j].topLayer;
      && Rooted(t1.layers, t1.images[id].topLayer)
      && (Kept(t.layers, Drop(t, id).layers, Chain(t, j)) <==>
            && ContainersOff(t, id, j)
            && !(Released(t1, id) != {} && top in t1.layers && top in t1.images[id].mappedTopLayers))
  {
    var t1, top := WithoutContainersOf(t, id), t.images[j].topLayer;
    StaysWalkable(t, t1);
    if ContainersOff(t, id, j) {
      assert Kept(t.layers, t1.layers, Chain(t, j));
      SameChain(t.layers, t1.layers, top);
      ReleasedSparesIff(t1, id, j);
      DropKeptIff(t1, id, Released(t1, id), top, Chain(t1, j));
    }
  }

  lemma DropKeptIff(t: Tables, id: Id, gone: set<Id>, top: Id, chain: seq<Id>)
    requires "" !in t.layers && IsChain(t.layers, top, chain)
    requires gone !! (set l | l in chain) || (top != "" && top in gone)
    ensures Kept(t.layers, t.layers - gone, chain) <==> top !in t.layers || top !in gone
  {
    if top != "" && top !in t.layers {
      assert chain[1..] == [];
    }
  }

  /** So the layer that a container writes to must be on no other image's chain: here dropping the
      image "a", whose layer is missing, takes the top layer of "b". */
  lemma ContainerLayerIsLost()
    ensures var t := SharedWithContainer();
      && "" !in t.layers && AllRooted(t) && MappedPrivate(t.images)
      && "x" in Chain(t, "b") && "z" in Chain(t, "a") && "z" !in t.layers && "x" !in Drop(t, "a").layers
  {
    var t := SharedWithContainer();
    assert IsChain(t.layers, "x", ["x"]) && IsChain(t.layers, "z", ["z"]);
    ChainUnique(t.layers, "x", ["x"], ChainOf(t.layers, "x"));
    ChainUnique(t.layers, "z", ["z"], ChainOf(t.layers, "z"));
    assert "c" in ContainersOf(t, "a") && t.containers["c"].layerID == "x";
  }

  function SharedWithContainer(): Tables {
    Tables(map["x" := ""],
           map["a" := Image("z", [], []), "b" := Image("x", [], [])],
           map["c" := Container("a", "x", [])],
           map[])
  }

  // ---- The state of the pass ----

  /** How far the first loop is: the images still to check, those that passed, those that failed in
      the order they were dropped, and the cache. */
  datatype Course = Course(todo: set<Id>, passed: set<Id>, drops: seq<Id>, cache: set<Id>)

  /** The layers of an image and of its containers. */
  ghost function LayersOf(t0: Tables, id: Id): set<Id>
    requires AllRooted(t0) && id in t0.images
  {
    (set l | l in Chain(t0, id)) + (set m | m in t0.images[id].mappedTopLayers)
    + LayersOfContainers(t0, ContainersOf(t0, id))
  }

  /** The layers of the images other than the kept ones, and of the containers of others than these. */
  ghost function LayersOff(t0: Tables, kept: set<Id>): set<Id>
    requires AllRooted(t0)
  {
    (set i, l | i in t0.images && i !in kept && l in LayersOf(t0, i) :: l)
    + (set c | c in t0.containers && t0.containers[c].imageID !in kept :: t0.containers[c].layerID)
  }

  ghost predicate Stays(t0: Tables, c: Id, kept: set<Id>) {
    c in t0.containers && (t0.containers[c].imageID in t0.images ==> t0.containers[c].imageID in kept)
  }

  /** The layer of the container, and everything under it, is there. */
  ghost predicate UnderKept(t0: Tables, t: Tables, c: Id)
    requires ContainersPrivate(t0) && c in t0.containers
  {
    Kept(t0.layers, t.layers, Under(t0, c))
  }

  ghost predicate ContainersStay(t0: Tables, t: Tables, kept: set<Id>) {
    && (forall d :: Stays(t0, d, kept) ==> d in t.containers)
    && (ContainersPrivate(t0) ==> forall d :: Stays(t0, d, kept) ==> UnderKept(t0, t, d))
  }

  /** Which images passed so far, and what that put into the cache. */
  ghost predicate Judged(t0: Tables, images: Images, env: Env, c: Course)
    requires AllRooted(t0)
  {
    && c.todo + c.passed <= images.Keys <= t0.images.Keys && c.todo !! c.passed
    && c.cache == CacheAfter(t0, env, t0.images.Keys - c.todo)
    && forall i :: i in t0.images && i !in c.todo ==> (i in c.passed <==> Passes(t0, env, i))
  }

  /** When every deletion works the tables are a function of the order of the drops. */
  ghost predicate Exact(t0: Tables, t: Tables, env: Env, c: Course) {
    AllWorks(env) ==>
      && t == DropAll(t0, c.drops) && Orders(c.drops, t0.images.Keys - c.todo - c.passed)
      && t.images.Keys == c.todo + c.passed
  }

  /** In the first loop, from `t0` to `t`. */
  ghost predicate Checking(t0: Tables, t: Tables, env: Env, c: Course)
    requires AllRooted(t0)
  {
    && ChainsKept(t0, t)
    && Judged(t0, t.images, env, c)
    && t0.layers.Keys - t.layers.Keys <= LayersOff(t0, c.todo + c.passed)
    && ContainersStay(t0, t, c.todo + c.passed)
    && Exact(t0, t, env, c)
  }

  /** What dropping the image `id` does to the tables `t1`. */
  ghost predicate Dropped(t0: Tables, t1: Tables, t2: Tables, env: Env, id: Id)
    requires AllRooted(t0) && id in t0.images
  {
    && ChainsKept(t0, t2)
    && (t2.images == t1.images || t2.images == t1.images - {id})
    && t1.layers.Keys - t2.layers.Keys <= LayersOf(t0, id)
    && (forall kept :: ContainersStay(t0, t1, kept) ==> ContainersStay(t0, t2, kept - {id}))
    && (AllWorks(env) ==> t2 == Drop(t1, id) && t2.images == t1.images - {id})
  }

  lemma CheckingStarts(t0: Tables, env: Env)
    requires AllRooted(t0)
    ensures Checking(t0, t0, env, Course(t0.images.Keys, {}, [], env.cache0))
  {
  }

  lemma CacheAfterMore(t0: Tables, env: Env, todo: set<Id>, id: Id)
    requires AllRooted(t0) && id in todo && todo <= t0.images.Keys
    ensures CacheAfter(t0, env, t0.images.Keys - (todo - {id})) ==
            CacheAfter(t0, env, t0.images.Keys - todo) + AcceptedOf(t0, env, id)
  {
    assert t0.images.Keys - (todo - {id}) == t0.images.Keys - todo + {id};
  }

  lemma CacheBounds(t0: Tables, env: Env, ids: set<Id>)
    requires AllRooted(t0) && ids <= t0.images.Keys
    ensures env.cache0 <= CacheAfter(t0, env, ids) <= Good(t0, env)
  {
  }

  function Passed(c: Course, id: Id, accepted: set<Id>): Course {
    Course(c.todo - {id}, c.passed + {id}, c.drops, c.cache + accepted)
  }

  function Failed(c: Course, id: Id, accepted: set<Id>): Course {
    Course(c.todo - {id}, c.passed, c.drops + [id], c.cache + accepted)
  }

  lemma CheckingPassed(t0: Tables, t: Tables, env: Env, c: Course, id: Id)
    requires AllRooted(t0) && Checking(t0, t, env, c) && id in c.todo && Passes(t0, env, id)
    ensures Checking(t0, t, env, Passed(c, id, AcceptedOf(t0, env, id)))
  {
    var c' := Passed(c, id, AcceptedOf(t0, env, id));
    assert c'.todo + c'.passed == c.todo + c.passed;
    assert Judged(t0, t.images, env, c') by {
      CacheAfterMore(t0, env, c.todo, id);
    }
    assert t0.images.Keys - c'.todo - c'.passed == t0.images.Keys - c.todo - c.passed;
  }

  lemma OffMore(t0: Tables, kept: set<Id>, id: Id)
    requires AllRooted(t0) && id in t0.images
    ensures LayersOff(t0, kept) + LayersOf(t0, id) <= LayersOff(t0, kept - {id})
  {
  }

  lemma OrdersMore(order: seq<Id>, ids: set<Id>, id: Id)
    requires Orders(order, ids) && id !in ids
    ensures Orders(order + [id], ids + {id})
  {
  }

  lemma ExactFailed(t0: Tables, t: Tables, t': Tables, env: Env, c: Course, id: Id, accepted: set<Id>)
    requires Exact(t0, t, env, c) && id in t0.images && id in c.todo && id !in c.passed
    requires AllWorks(env) ==> t' == Drop(t, id) && t'.images == t.images - {id}
    ensures Exact(t0, t', env, Failed(c, id, accepted))
  {
    assert (c.drops + [id])[..|c.drops|] == c.drops;
    if AllWorks(env) {
      OrdersMore(c.drops, t0.images.Keys - c.todo - c.passed, id);
      assert t0.images.Keys - (c.todo - {id}) - c.passed == t0.images.Keys - c.todo - c.passed + {id};
    }
  }

  lemma JudgedFailed(t0: Tables, images: Images, images': Images, env: Env, c: Course, id: Id)
    requires AllRooted(t0) && Judged(t0, images, env, c) && id in c.todo && !Passes(t0, env, id)
    requires images' == images || images' == images - {id}
    ensures Judged(t0, images', env, Failed(c, id, AcceptedOf(t0, env, id)))
  {
    CacheAfterMore(t0, env, c.todo, id);
  }

  lemma CheckingFailed(t0: Tables, t: Tables, t': Tables, env: Env, c: Course, id: Id)
    requires AllRooted(t0) && Checking(t0, t, env, c) && id in c.todo && !Passes(t0, env, id)
    requires Dropped(t0, t, t', env, id)
    ensures Checking(t0, t', env, Failed(c, id, AcceptedOf(t0, env, id)))
  {
    var accepted := AcceptedOf(t0, env, id);
    var c' := Failed(c, id, accepted);
    assert c'.todo + c'.passed == c.todo + c.passed - {id};
    JudgedFailed(t0, t.images, t'.images, env, c, id);
    ExactFailed(t0, t, t', env, c, id, accepted);
    OffMore(t0, c.todo + c.passed, id);
  }

  /** Containers of one image or without image go, with their layers; the chains under the other
      containers do not notice. */
  lemma OthersUnderKept(t0: Tables, t1: Tables, t2: Tables, gone: set<Id>, d: Id)
    requires ContainersPrivate(t0) && Submap(t1.containers, t0.containers) && Submap(t2.layers, t1.layers)
    requires gone <= t1.containers.Keys && t1.layers.Keys - t2.layers.Keys <= LayersOfContainers(t1, gone)
    requires d in t0.containers && d !in gone && UnderKept(t0, t1, d)
    ensures UnderKept(t0, t2, d)
  {
    forall l | l in Under(t0, d) && l in t0.layers
      ensures l in t2.layers && t2.layers[l] == t0.layers[l]
    {
      assert l in t1.layers && l !in LayersOfContainers(t1, gone);
    }
  }

  lemma DropKeepsUnder(t0: Tables, t: Tables, id: Id, gone: set<Id>, d: Id)
    requires ContainersPrivate(t0) && Walkable(t) && Submap(t.layers, t0.layers)
    requires Submap(t.images, t0.images) && Submap(t.containers, t0.containers)
    requires id in t.images && gone <= Released(t, id) && d in t.containers && UnderKept(t0, t, d)
    ensures UnderKept(t0, t.(layers := t.layers - gone), d)
  {
    SameChain(t0.layers, t.layers, t0.containers[d].layerID);
    ReleasedSparesContainerIff(t, id, d);
  }

  lemma LosingContainerLayers(t0: Tables, t1: Tables, t2: Tables, gone: set<Id>)
    requires WellFormed(t0) && ChainsKept(t0, t1) && t1.images == t2.images
    requires Submap(t2.layers, t1.layers) && Submap(t2.containers, t1.containers)
    requires gone <= t1.containers.Keys && t1.layers.Keys - t2.layers.Keys <= LayersOfContainers(t1, gone)
    ensures ChainsKept(t0, t2) && WellFormed(t1) && WellFormed(t2)
  {
    StaysWellFormed(t0, t1);
    forall l | l in t1.layers && l !in t2.layers
      ensures exists c :: c in t1.containers && t1.containers[c].layerID == l
    {
      assert l in t1.layers.Keys - t2.layers.Keys;
    }
    ContainerLayersOff(t1, t2.layers, t2.containers);
    ChainsKeptTrans(t0, t1, t2);
    StaysWellFormed(t0, t2);
  }

  /** Deleting the image after its containers: what stays of the other containers. */
  lemma DroppingStay(t0: Tables, t1: Tables, t2: Tables, gone: set<Id>, id: Id, kept: set<Id>)
    requires WellFormed(t0) && ChainsKept(t0, t2) && WellFormed(t2) && id in t2.images
    requires Submap(t1.containers, t0.containers) && Submap(t2.layers, t1.layers)
    requires t1.layers.Keys - t2.layers.Keys <= LayersOfContainers(t1, ContainersOf(t1, id))
    requires forall c :: c in t1.containers && t1.containers[c].imageID != id ==> c in t2.containers
    requires gone <= Released(t2, id) && ContainersStay(t0, t1, kept)
    ensures ContainersStay(t0, t2.(layers := t2.layers - gone), kept - {id})
    ensures ContainersStay(t0, t2, kept - {id})
  {
    assert id in t0.images;
    forall d | Stays(t0, d, kept - {id})
      ensures d in t2.containers
      ensures ContainersPrivate(t0) ==> UnderKept(t0, t2, d) && UnderKept(t0, t2.(layers := t2.layers - gone), d)
    {
      assert Stays(t0, d, kept);
      if ContainersPrivate(t0) {
        OthersUnderKept(t0, t1, t2, ContainersOf(t1, id), d);
        DropKeepsUnder(t0, t2, id, gone, d);
      }
    }
  }

  lemma ReleasedIsOf(t0: Tables, t: Tables, id: Id)
    requires WellFormed(t0) && ChainsKept(t0, t) && id in t.images && WellFormed(t)
    ensures Released(t, id) <= LayersOf(t0, id)
  {
    StaysWellFormed(t0, t);
    assert Chain(t, id) == Chain(t0, id);
  }

  /** The layers that go with the image: none if deleting its record reports a failure. */
  ghost function Lost(t: Tables, env: Env, id: Id): set<Id>
    requires id in t.images && Rooted(t.layers, t.images[id].topLayer)
  {
    if id in env.recordFails then {} else Released(t, id) - env.unmountFails
  }

  /** How dropping the image `id` goes: its containers first, as far as that works, then the image. */
  ghost predicate Dropping(t1: Tables, t2: Tables, t3: Tables, env: Env, id: Id, deleted: bool) {
    && id in t1.images && t1.images == t2.images
    && Submap(t2.layers, t1.layers) && Submap(t2.containers, t1.containers)
    && t1.layers.Keys - t2.layers.Keys <= LayersOfContainers(t1, ContainersOf(t1, id))
    && (forall c :: c in t1.containers && t1.containers[c].imageID != id ==> c in t2.containers)
    && (AllWorks(env) ==> deleted && t2 == WithoutContainersOf(t1, id))
    && (if deleted
        then Walkable(t2) ==> t3 == t2.(layers := t2.layers - Lost(t2, env, id), images := t2.images - {id})
        else t3 == t2)
  }

  lemma DroppingChains(t0: Tables, t1: Tables, t2: Tables, t3: Tables, env: Env, id: Id, deleted: bool)
    requires WellFormed(t0) && ChainsKept(t0, t1) && Dropping(t1, t2, t3, env, id, deleted)
    ensures ChainsKept(t0, t2) && WellFormed(t2) && ChainsKept(t0, t3)
  {
    LosingContainerLayers(t0, t1, t2, ContainersOf(t1, id));
    if deleted {
      DeleteImageKeepsChains(t2, id, Lost(t2, env, id));
      ChainsKeptTrans(t0, t2, t3);
    }
  }

  lemma DroppingLoses(t0: Tables, t1: Tables, t2: Tables, t3: Tables, env: Env, id: Id, deleted: bool)
    requires WellFormed(t0) && ChainsKept(t0, t1) && Dropping(t1, t2, t3, env, id, deleted)
    requires ChainsKept(t0, t2) && WellFormed(t2)
    ensures t1.layers.Keys - t3.layers.Keys <= LayersOf(t0, id)
  {
    ReleasedIsOf(t0, t2, id);
    assert LayersOfContainers(t1, ContainersOf(t1, id)) <= LayersOfContainers(t0, ContainersOf(t0, id));
  }

  lemma DroppingOthers(t0: Tables, t1: Tables, t2: Tables, t3: Tables, env: Env, id: Id, deleted: bool, kept: set<Id>)
    requires WellFormed(t0) && ChainsKept(t0, t1) && Dropping(t1, t2, t3, env, id, deleted)
    requires ChainsKept(t0, t2) && WellFormed(t2) && ContainersStay(t0, t1, kept)
    ensures ContainersStay(t0, t3, kept - {id})
  {
    DroppingStay(t0, t1, t2, Lost(t2, env, id), id, kept);
  }

  lemma DroppingKeeps(t0: Tables, t1: Tables, t2: Tables, t3: Tables, env: Env, id: Id, deleted: bool)
    requires WellFormed(t0) && ChainsKept(t0, t1) && Dropping(t1, t2, t3, env, id, deleted)
    ensures Dropped(t0, t1, t3, env, id)
  {
    DroppingChains(t0, t1, t2, t3, env, id, deleted);
    DroppingLoses(t0, t1, t2, t3, env, id, deleted);
    forall kept | ContainersStay(t0, t1, kept) {
      DroppingOthers(t0, t1, t2, t3, env, id, deleted, kept);
    }
  }

  // ---- A whole pass ----

  /** The course of a pass: which images passed, in which order the others were dropped, the tables
      after that, the order of the walk over the containers, the layers before the sweep, and the
      cache. */
  datatype Pass = Pass(passed: set<Id>, drops: seq<Id>, mid: Tables, order: seq<Id>, unswept: Forest, cache: set<Id>)

  /** What the second loop does. */
  ghost predicate ContainersChecked(t1: Tables, t2: Tables, env: Env, order: seq<Id>) {
    && t2.images == t1.images && Submap(t2.layers, t1.layers) && Submap(t2.containers, t1.containers)
    && t1.layers.Keys - t2.layers.Keys <= LayersOfContainers(t1, Orphans(t1))
    && t1.containers.Keys - t2.containers.Keys <= Orphans(t1)
    && Orders(order, t1.containers.Keys)
    && (AllWorks(env) ==> t2 == Walked(t1, order))
  }

  /** In the second loop, from `t1` to `t`, with `todo` still to be visited. */
  ghost predicate Visited(t1: Tables, t: Tables, env: Env, order: seq<Id>, todo: set<Id>) {
    && t.images == t1.images && Submap(t.layers, t1.layers) && Submap(t.containers, t1.containers)
    && t1.layers.Keys - t.layers.Keys <= LayersOfContainers(t1, Orphans(t1))
    && t1.containers.Keys - t.containers.Keys <= Orphans(t1)
    && todo <= t.containers.Keys && Orders(order, t1.containers.Keys - todo)
    && (AllWorks(env) ==> t == Walked(t1, order))
  }

  lemma VisitNext(t1: Tables, t: Tables, t': Tables, env: Env, order: seq<Id>, todo: set<Id>, c: Id, found: bool)
    requires Visited(t1, t, env, order, todo) && c in todo
    requires found == ExistsIn(t, t.containers[c].imageID)
    requires t'.images == t.images && (found ==> t' == t)
    requires t'.containers == t.containers || t'.containers == t.containers - {c}
    requires t'.layers == t.layers || t'.layers == t.layers - {t.containers[c].layerID}
    requires AllWorks(env) && !found ==> t' == WithoutContainers(t, {c})
    ensures Visited(t1, t', env, order + [c], todo - {c})
  {
    assert (order + [c])[..|order|] == order;
    OrdersMore(order, t1.containers.Keys - todo, c);
    assert t1.containers.Keys - todo + {c} == t1.containers.Keys - (todo - {c});
  }

  ghost predicate SafeFor(t0: Tables, t: Tables, passed: set<Id>)
    requires AllRooted(t0)
  {
    // No image that is left lost a layer, and every image that passed is left.
    && ChainsKept(t0, t) && passed <= t.images.Keys
    // The containers of the images that passed are left, with their layers and what is under them.
    && (forall c :: c in t0.containers && t0.containers[c].imageID in passed ==> c in t.containers)
    && (ContainersPrivate(t0) ==>
          forall c :: c in t0.containers && t0.containers[c].imageID in passed ==> UnderKept(t0, t, c))
  }

  /** No layer was taken that an image left has as its top or a mapped top layer, or that a container
      left writes to. */
  ghost predicate NamedStay(t: Tables, unswept: Forest) {
    && (forall i, l :: i in t.images && l in unswept && l in [t.images[i].topLayer] + t.images[i].mappedTopLayers ==>
          l in t.layers)
    && forall c :: c in t.containers && t.containers[c].layerID in unswept ==> t.containers[c].layerID in t.layers
  }

  /** What a pass comes to, from `t0` to `t`. */
  ghost predicate PassOutcome(t0: Tables, t: Tables, env: Env, p: Pass)
    requires AllRooted(t0)
  {
    && SafeFor(t0, t, p.passed)
    // An image passes exactly when its whole chain is cached or verifies.
    && (forall i :: i in t0.images ==> (i in p.passed <==> Passes(t0, env, i)))
    // The cache grew by what was accepted, and is as sound as before for the images left.
    && p.cache == CacheAfter(t0, env, t0.images.Keys)
    && (CacheSound(env.cache0, env.intact, t0) ==> AllRooted(t) && CacheSound(p.cache, env.intact, t))
    // Before the sweep only layers of images that failed, and of containers of other images than
    // those that passed, are gone; the sweep takes the removable layers.
    && Submap(p.unswept, t0.layers) && t0.layers.Keys - p.unswept.Keys <= LayersOff(t0, p.passed)
    && t.layers == SweptOnce(p.unswept, p.cache + Uses(t) + env.unmountFails)
    && NamedStay(t, p.unswept)
    // When every deletion works, the tables before the sweep are a function of the two orders; no
    // image that failed is left, and no container without image if none could be mistaken.
    && (AllWorks(env) ==>
          && p.mid == DropAll(t0, p.drops) && Orders(p.drops, t0.images.Keys - p.passed)
          && t.(layers := p.unswept) == Walked(p.mid, p.order) && Orders(p.order, p.mid.containers.Keys)
          && t.images.Keys == p.passed
          && (Apart(p.mid) ==> NoOrphans(t))
          // A container is gone, with its layer, if nothing in the old tables is found where its
          // image's ID belongs.
          && forall c :: c in t0.containers && Unnoticed(t0, c) ==>
               c !in t.containers && t0.containers[c].layerID !in t.layers)
  }

  lemma SweepKeepsNamed(t: Tables, unswept: Forest, blocked: set<Id>)
    requires t.layers == SweptOnce(unswept, blocked) && Uses(t) <= blocked
    ensures NamedStay(t, unswept)
  {
    forall l | l in unswept && l in blocked
      ensures l in t.layers
    {
      if Removable(unswept, blocked, l) {
        RemovableDown(unswept, blocked, l);
      }
    }
  }

  lemma BlockedStays(forest0: Forest, forest: Forest, blocked: set<Id>, top: Id, chain: seq<Id>)
    requires IsChain(forest0, top, chain) && Submap(forest, forest0) && Kept(forest0, forest, chain) && top in blocked
    ensures Kept(forest0, SweptOnce(forest, blocked), chain)
  {
    ChainStable(forest0, forest, top, chain);
    forall l | l in chain && l in forest0
      ensures l in SweptOnce(forest, blocked)
    {
      var n :| 0 <= n < |chain| && chain[n] == l;
      BlockedChainStays(forest, blocked, top, chain, n);
    }
  }

  /** The sweep takes no layer from the chain of an image that is left. */
  lemma SweepKeepsChains(t0: Tables, t: Tables, blocked: set<Id>)
    requires WellFormed(t0) && ChainsKept(t0, t) && Uses(t) <= blocked
    ensures ChainsKept(t0, t.(layers := SweptOnce(t.layers, blocked)))
  {
    forall i | i in t.images
      ensures Kept(t0.layers, SweptOnce(t.layers, blocked), Chain(t0, i))
    {
      BlockedStays(t0.layers, t.layers, blocked, t0.images[i].topLayer, Chain(t0, i));
    }
  }

  lemma SweepKeepsSafe(t0: Tables, t: Tables, blocked: set<Id>, passed: set<Id>)
    requires WellFormed(t0) && SafeFor(t0, t, passed) && Uses(t) <= blocked
    ensures SafeFor(t0, t.(layers := SweptOnce(t.layers, blocked)), passed)
  {
    SweepKeepsChains(t0, t, blocked);
    forall c | ContainersPrivate(t0) && c in t0.containers && t0.containers[c].imageID in passed
      ensures UnderKept(t0, t.(layers := SweptOnce(t.layers, blocked)), c)
    {
      assert t.containers[c].layerID in blocked;
      BlockedStays(t0.layers, t.layers, blocked, t0.containers[c].layerID, Under(t0, c));
    }
  }

  lemma OrphansAreOff(t0: Tables, t1: Tables, t2: Tables, kept: set<Id>, gone: set<Id>)
    requires AllRooted(t0) && Submap(t1.layers, t0.layers) && Submap(t1.containers, t0.containers)
    requires gone <= t1.containers.Keys
    requires t0.layers.Keys - t1.layers.Keys <= LayersOff(t0, kept)
    requires t1.layers.Keys - t2.layers.Keys <= LayersOfContainers(t1, gone)
    requires forall c :: c in gone ==> t1.containers[c].imageID !in kept
    ensures t0.layers.Keys - t2.layers.Keys <= LayersOff(t0, kept)
  {
    forall l | l in LayersOfContainers(t1, gone)
      ensures l in LayersOff(t0, kept)
    {
      var c :| c in gone && t1.containers[c].layerID == l;
      assert c in t0.containers && t0.containers[c].imageID !in kept;
    }
    assert t0.layers.Keys - t2.layers.Keys <= (t0.layers.Keys - t1.layers.Keys) + (t1.layers.Keys - t2.layers.Keys);
  }

  /** The second loop takes nothing from the images that passed and their containers. */
  lemma WalkKeepsSafe(t0: Tables, t1: Tables, t2: Tables, passed: set<Id>)
    requires WellFormed(t0) && ChainsKept(t0, t1) && passed <= t1.images.Keys && t2.images == t1.images
    requires ContainersStay(t0, t1, passed)
    requires Submap(t2.layers, t1.layers) && Submap(t2.containers, t1.containers)
    requires t1.layers.Keys - t2.layers.Keys <= LayersOfContainers(t1, Orphans(t1))
    requires t1.containers.Keys - t2.containers.Keys <= Orphans(t1)
    ensures SafeFor(t0, t2, passed)
  {
    LosingContainerLayers(t0, t1, t2, Orphans(t1));
    forall d | d in t0.containers && t0.containers[d].imageID in passed
      ensures d in t2.containers
      ensures ContainersPrivate(t0) ==> UnderKept(t0, t2, d)
    {
      assert Stays(t0, d, passed);
      assert d in t1.containers && d !in Orphans(t1);
      if ContainersPrivate(t0) {
        OthersUnderKept(t0, t1, t2, Orphans(t1), d);
      }
    }
  }

  lemma CacheStaysSound(t0: Tables, t: Tables, env: Env)
    requires WellFormed(t0) && ChainsKept(t0, t) && CacheSound(env.cache0, env.intact, t0)
    ensures AllRooted(t) && CacheSound(CacheAfter(t0, env, t0.images.Keys), env.intact, t)
  {
    StaysWellFormed(t0, t);
    CacheBounds(t0, env, t0.images.Keys);
    forall i, l | i in t.images && l in Chain(t, i) && l in CacheAfter(t0, env, t0.images.Keys)
      ensures l in t.layers && l in env.intact
    {
      assert l in Chain(t0, i) && l in Good(t0, env);
    }
  }

  lemma WalkedOutcome(t0: Tables, t1: Tables, t2: Tables, env: Env, c: Course, order: seq<Id>)
    requires AllRooted(t0) && Checking(t0, t1, env, c) && c.todo == {} && ContainersChecked(t1, t2, env, order)
    requires AllWorks(env)
    ensures t1 == DropAll(t0, c.drops) && Orders(c.drops, t0.images.Keys - c.passed) && t2.images.Keys == c.passed
    ensures t2 == Walked(t1, order) && (Apart(t1) ==> NoOrphans(t2))
  {
    assert t0.images.Keys - c.todo - c.passed == t0.images.Keys - c.passed;
    if Apart(t1) {
      ApartWalked(t1, order);
      WalkedShrinks(t1, order);
    }
  }

  lemma {:induction false} DropAllNames(t: Tables, ids: seq<Id>)
    ensures DropAll(t, ids).layerNames == t.layerNames
  {
    if ids != [] {
      DropAllNames(t, ids[..|ids| - 1]);
    }
  }

  lemma UnnoticedGone(t0: Tables, t1: Tables, t2: Tables, env: Env, c: Course, order: seq<Id>)
    requires AllRooted(t0) && Checking(t0, t1, env, c) && c.todo == {} && ContainersChecked(t1, t2, env, order)
    requires AllWorks(env)
    ensures forall d :: d in t0.containers && Unnoticed(t0, d) ==>
              d !in t2.containers && t0.containers[d].layerID !in t2.layers
  {
    DropAllNames(t0, c.drops);
    forall d | d in t0.containers && Unnoticed(t0, d)
      ensures d !in t2.containers && t0.containers[d].layerID !in t2.layers
    {
      assert Stays(t0, d, c.todo + c.passed) && d in t1.containers;
      assert Unnoticed(t1, d);
      UnnoticedGoes(t1, order, d);
    }
  }

  lemma PassConcluded(t0: Tables, t: Tables, env: Env, c: Course, p: Pass)
    requires WellFormed(t0) && Checking(t0, p.mid, env, c) && c.todo == {}
    requires ContainersChecked(p.mid, t.(layers := p.unswept), env, p.order)
    requires t.layers == SweptOnce(p.unswept, p.cache + Uses(t) + env.unmountFails)
    requires p.passed == c.passed && p.drops == c.drops && p.cache == c.cache
    ensures PassOutcome(t0, t, env, p)
  {
    var t2 := t.(layers := p.unswept);
    assert c.todo + c.passed == c.passed && t0.images.Keys - c.todo == t0.images.Keys;
    WalkKeepsSafe(t0, p.mid, t2, p.passed);
    OrphansAreOff(t0, p.mid, t2, p.passed, Orphans(p.mid));
    SweepKeepsNamed(t, p.unswept, p.cache + Uses(t) + env.unmountFails);
    SweepKeepsSafe(t0, t2, p.cache + Uses(t) + env.unmountFails, p.passed);
    assert t == t2.(layers := t.layers);
    if CacheSound(env.cache0, env.intact, t0) {
      CacheStaysSound(t0, t, env);
    }
    if AllWorks(env) {
      WalkedOutcome(t0, p.mid, t2, env, c, p.order);
      UnnoticedGone(t0, p.mid, t2, env, c, p.order);
    }
  }
}
