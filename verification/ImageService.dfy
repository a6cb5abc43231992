/** Tagging images and removing references to them. */
module ImageService {
  import opened Names
  import opened Slices
  import opened Options
  import opened ImageStore
  import opened Lookup

  datatype Reference = ByID(id: Id) | ByName(normalName: Name)

  datatype Outcome = Done | Failed(reason: Reason)

  datatype Reason = BadReference | NoSuchImage | InUse | Store(error: Error)

  class ImageService {
    const store: ImageStore
    const normalize: Name -> Option<Name>   // the reference library: a name with registry, path and tag filled in
    var usedByContainers: set<Id>           // the images containers were made from

    constructor (store: ImageStore, normalize: Name -> Option<Name>)
      ensures this.store == store && this.normalize == normalize && usedByContainers == {}
    {
      this.store, this.normalize, usedByContainers := store, normalize, {};
    }

    /** parseImageName: a reference is an ID if it is, or shortens, the ID of the image that
        looking it up gives; otherwise it is a name. */
    function ParseImageName(imageName: string): (r: Option<Reference>)
      requires store.Shape()
      reads store, store.repr
    {
      var found := Find(imageName);
      if |imageName| >= 3 && found.Some? && imageName <= found.value.id then Some(ByID(found.value.id))
      else
        match normalize(imageName)
        case None => None
        case Some(name) => Some(ByName(name))
    }

    /** The store's lookup: by ID, by name, or by a prefix that only one ID has. */
    function Find(imageName: string): (r: Option<Image>)
      requires store.Shape()
      reads store, store.repr
      ensures r.Some? ==> r.value in store.repr && r.value.id in store.byid && store.byid[r.value.id] == r.value
      ensures IdOf(r) == Found(store.byid.Keys, store.owners, imageName)
    {
      var direct := store.Lookup(imageName);
      if direct.Some? then direct
      else if Shortens(store.byid.Keys, imageName) then
        var id :| id in store.byid && imageName <= id;
        Some(store.byid[id])
      else None
    }

    function Resolve(ref: Reference): (r: Option<Image>)
      requires store.Shape()
      reads store, store.repr
      ensures r.Some? ==> r.value in store.repr && r.value.id in store.byid && store.byid[r.value.id] == r.value
    {
      match ref
      case ByID(id) => Find(id)
      case ByName(name) => Find(name)
    }

    /** The image an argument of Tag or UnrefImage stands for. */
    function Target(imageName: string): (r: Option<Image>)
      requires store.Shape()
      reads store, store.repr
      ensures r.Some? ==> r.value in store.repr && r.value.id in store.byid && store.byid[r.value.id] == r.value
      ensures IdOf(r) == Meant(store.byid.Keys, store.owners, normalize, imageName)
    {
      match ParseImageName(imageName)
      case None => None
      case Some(ref) => Resolve(ref)
    }

    /** The image's names but for the given one and its normal form. */
    method GetReducedNames(imageName: string, tmpName: Name, names: seq<Name>) returns (reduced: seq<Name>)
      ensures reduced == Without(Without(names, tmpName), imageName)
    {
      reduced := [];
      for k := 0 to |names|
        invariant reduced == Without(Without(names[..k], tmpName), imageName)
      {
        assert names[..k + 1] == names[..k] + [names[k]];
        WithoutConcat(names[..k], [names[k]], tmpName);
        WithoutConcat(Without(names[..k], tmpName), Without([names[k]], tmpName), imageName);
        if names[k] != tmpName && names[k] != imageName {
          reduced := reduced + [names[k]];
        }
      }
      assert names[..|names|] == names;
    }

    /** The failure when a reference gives no image. */
    function Unresolved(imageName: string): (r: Outcome)
      ensures r == Failed(BadReference) || r == Failed(NoSuchImage)
    {
      if normalize(imageName).None? then Failed(BadReference) else Failed(NoSuchImage)
    }

    method Tag(srcName: string, destName: Name) returns (r: Outcome)
      requires store.Valid()
      modifies store`byname, store`disk, store`listed, store`owners, store`writes, store.repr
      // It fails just if the source gives no image or AddName fails.
      ensures old(Target(srcName)).None? ==> r == Unresolved(srcName) && store.State() == old(store.State())
      ensures var image := old(Target(srcName)); image.Some? ==>
        r == match old(store.AddResult(store.owners, image.value.id, destName))
             case Ok => Done
             case Err(error) => Failed(Store(error))
      ensures var image := old(Target(srcName)); image.Some? ==>
        if r == Failed(Store(LoserNotSaved))
        then store.State() == old(store.State()).(listed := Stripped(old(store.listed), old(store.owners), destName))
        else store.Valid() && store.listed == AddedName(old(store.listed), image.value.id, destName)
      ensures r.Done? && old(store.InStep()) ==> store.InStep()
      // Success or not, no write ever leaves a name in two records.
      ensures old(store.InStep()) ==> NewWritesExclusive(old(store.writes), store.writes)
    {
      var ref := ParseImageName(srcName);
      if ref.None? {
        return Failed(BadReference);
      }
      var image := Resolve(ref.value);
      if image.None? {
        return Failed(NoSuchImage);
      }
      assert store.Lookup(image.value.id) == image;
      var added := store.AddName(image.value.id, destName);
      r := if added.Ok? then Done else Failed(Store(added.error));
    }

    method DeleteImage(id: Id) returns (r: Outcome)
      requires store.Valid() && id in store.byid
      modifies store`byid, store`byname, store`disk, store`listed, store`owners, store`writes
      ensures store.Valid()
      ensures r == if id in usedByContainers then Failed(InUse)
                   else if id in store.stuckFiles + store.stuckDirs then Failed(Store(NotRemoved))
                   else Done
      ensures r == Failed(InUse) ==> store.State() == old(store.State())
      ensures r != Failed(InUse) ==>
        && store.listed == old(store.listed) - {id}
        && store.owners == old(store.owners) - (set n | n in old(store.listed)[id])
        && store.disk == if id in store.stuckFiles then old(store.disk) else old(store.disk) - {id}
      ensures r.Done? && old(store.InStep()) ==> store.InStep()
      ensures old(store.InStep()) ==> NewWritesExclusive(old(store.writes), store.writes)
    {
      if id in usedByContainers {
        return Failed(InUse);
      }
      assert store.Lookup(id).value == store.byid[id];
      var deleted := store.Delete(id);
      r := if deleted.Ok? then Done else Failed(Store(deleted.error));
    }

    method UnrefImage(imageName: string) returns (r: Outcome)
      requires store.Valid()
      modifies store`byid, store`byname, store`disk, store`listed, store`owners, store`writes, store.repr
      ensures store.Valid()
      ensures old(Target(imageName)).None? ==> r == Unresolved(imageName) && store.State() == old(store.State())
      // It fails just if the image is to go and is in use, or the file system does.
      ensures var image := old(Target(imageName)); image.Some? ==> var id := image.value.id;
        r == if AllTaken(old(store.listed)[id], id, imageName, normalize)
             then if id in usedByContainers then Failed(InUse)
                  else if id in store.stuckFiles + store.stuckDirs then Failed(Store(NotRemoved))
                  else Done
             else if id in store.unwritable then Failed(Store(NotSaved)) else Done
      ensures r == Failed(InUse) ==> store.State() == old(store.State())
      // An ID, or a name that happens to begin the image's ID, takes the whole image; in memory it is
      // done even if the file system fails.
      ensures var image := old(Target(imageName)); image.Some? && r != Failed(InUse) ==> var id := image.value.id;
        && Unrefed(old(store.listed), old(store.owners), store.listed, store.owners, id, imageName, normalize)
        && store.disk == if AllTaken(old(store.listed)[id], id, imageName, normalize)
                         then if id in store.stuckFiles then old(store.disk) else old(store.disk) - {id}
                         else if id in store.unwritable then old(store.disk)
                         else old(store.disk)[id := store.listed[id]]
      // What references stand for then: this one for nothing, unless it or its normal form begins an
      // ID; all others for what they stood for, unless one has come to begin an ID.
      ensures var image := old(Target(imageName)); image.Some? && r != Failed(InUse) ==> var id := image.value.id;
        && OthersMean(old(store.listed).Keys, old(store.owners), store.listed.Keys, store.owners, normalize, id)
        && (!(imageName <= id) ==>
              var ids := store.listed.Keys;
              Target(imageName).None? <==>
                && !BeginsOne(ids, store.owners, imageName)
                && Found(ids, store.owners, normalize(imageName).value) == None)
      ensures r.Done? && old(store.InStep()) ==> store.InStep()
      ensures old(store.InStep()) ==> NewWritesExclusive(old(store.writes), store.writes)
    {
      var ref := ParseImageName(imageName);
      if ref.None? {
        return Failed(BadReference);
      }
      var found := Resolve(ref.value);
      if found.None? {
        return Failed(NoSuchImage);
      }
      var image := found.value;
      assert store.Lookup(image.id) == found;
      ghost var before := store.State();
      if !(imageName <= image.id) {
        var namedRef := normalize(imageName);
        if namedRef.None? {
          return Failed(BadReference);
        }
        var reducedNames := GetReducedNames(imageName, namedRef.value, image.names);
        ReducedFacts(image.names, imageName, namedRef.value);
        if |reducedNames| > 0 {
          assert reducedNames[0] in reducedNames;
          NarrowedIsUnreferenced(store.owners, store.listed, image.id, imageName, namedRef.value);
          var renamed := store.SetNames(image.id, reducedNames);
          WrittenInStep(before.writes, store.writes, store.disk, store.owners, store.listed);
          UnrefedMeans(before.listed, before.owners, store.listed, store.owners, image.id, imageName, normalize);
          return if renamed.Ok? then Done else Failed(Store(renamed.error));
        }
        DeletedIsUnreferenced(store.owners, store.listed, image.id, imageName, namedRef.value);
      }
      r := DeleteImage(image.id);
      if r != Failed(InUse) {
        UnrefedMeans(before.listed, before.owners, store.listed, store.owners, image.id, imageName, normalize);
      }
    }
  }

  /** No name would be left, or the reference begins the ID: the image goes as a whole. */
  predicate AllTaken(names: seq<Name>, id: Id, imageName: string, normalize: Name -> Option<Name>) {
    imageName <= id || forall n :: n in names ==> n == imageName || normalize(imageName) == Some(n)
  }

  /** The two names are gone, every other name has the owner it had, and the image is gone just
      if it had no other name. */
  ghost predicate Unreferenced(t: Table, owners: map<Name, Id>, t': Table, owners': map<Name, Id>,
                               id: Id, imageName: Name, normalName: Name)
    requires id in t
  {
    && (forall n :: n in owners' ==> n in owners && owners'[n] == owners[n])
    && (forall n :: n in owners && n !in owners' ==> owners[n] == id && (n == imageName || n == normalName))
    && (forall n :: n in owners' && owners'[n] == id ==> n != imageName && n != normalName)
    && (id in t' <==> exists n :: n in t[id] && n != imageName && n != normalName)
    && (id in t' ==> t'[id] == Without(Without(t[id], normalName), imageName))
    && t'.Keys <= t.Keys && (forall i :: i in t && i != id ==> i in t' && t'[i] == t[i])
  }

  /** What UnrefImage does to an image, given by its ID or by name. */
  ghost predicate Unrefed(t: Table, owners: map<Name, Id>, t': Table, owners': map<Name, Id>,
                          id: Id, imageName: Name, normalize: Name -> Option<Name>)
  {
    && id in t
    && if imageName <= id then t' == t - {id} && owners' == owners - (set n | n in t[id])
       else
         && normalize(imageName).Some?
         && Unreferenced(t, owners, t', owners', id, imageName, normalize(imageName).value)
  }

  lemma ReducedFacts(names: seq<Name>, imageName: Name, normalName: Name)
    requires NoRepeat(names)
    ensures var reduced := Without(Without(names, normalName), imageName);
      NoRepeat(reduced) && forall n :: n in reduced <==> n in names && n != imageName && n != normalName
  {
    WithoutFacts(names, normalName);
    WithoutFacts(Without(names, normalName), imageName);
  }

  lemma OwnersOf(owners: map<Name, Id>, t: Table, id: Id)
    requires Inverse(owners, t) && id in t
    ensures forall n :: n in owners && owners[n] == id <==> n in t[id]
    ensures forall n :: n in t[id] ==> n in owners
  {
    forall n
      ensures n in owners && owners[n] == id <==> n in t[id]
      ensures n in t[id] ==> n in owners
    {
      assert n in owners ==> Lists(t, owners[n], n);
      assert n in t[id] ==> Lists(t, id, n);
    }
  }

  lemma NarrowedIsUnreferenced(owners: map<Name, Id>, t: Table, id: Id, imageName: Name, normalName: Name)
    requires Inverse(owners, t) && id in t
    ensures var reduced := Without(Without(t[id], normalName), imageName);
      reduced != [] ==>
        && Dedupe(reduced) == reduced
        && Unreferenced(t, owners, Renamed(t, id, reduced), Reindexed(owners, t, id, reduced),
                        id, imageName, normalName)
        && Renamed(t, id, reduced) == t[id := reduced]
  {
    var reduced := Without(Without(t[id], normalName), imageName);
    ReducedFacts(t[id], imageName, normalName);
    InverseExclusive(owners, t);
    SetNamesSubset(t, id, reduced);
    OwnersOf(owners, t, id);
    if reduced != [] {
      assert reduced[0] in reduced;
    }
  }

  lemma DeletedIsUnreferenced(owners: map<Name, Id>, t: Table, id: Id, imageName: Name, normalName: Name)
    requires Inverse(owners, t) && id in t
    ensures Without(Without(t[id], normalName), imageName) == [] ==>
      Unreferenced(t, owners, t - {id}, owners - (set n | n in t[id]), id, imageName, normalName)
  {
    ReducedFacts(t[id], imageName, normalName);
    OwnersOf(owners, t, id);
  }

  // ---- What references stand for ----

  function IdOf(image: Option<Image>): Option<Id> {
    if image.Some? then Some(image.value.id) else None
  }

  /** The image that looking up the key gives. */
  ghost function Found(ids: set<Id>, owners: map<Name, Id>, key: string): Option<Id> {
    if key in ids then Some(key)
    else if key in owners then Some(owners[key])
    else if Shortens(ids, key) then
      var id :| id in ids && key <= id;
      Some(id)
    else None
  }

  /** The image that a reference stands for. */
  ghost function Meant(ids: set<Id>, owners: map<Name, Id>, normalize: Name -> Option<Name>,
                       imageName: string): Option<Id> {
    var found := Found(ids, owners, imageName);
    if |imageName| >= 3 && found.Some? && imageName <= found.value then found
    else if normalize(imageName).Some? then Found(ids, owners, normalize(imageName).value)
    else None
  }

  /** An ID that no name is given, of which the reference is the beginning. */
  ghost predicate BeginsOne(ids: set<Id>, owners: map<Name, Id>, imageName: string) {
    |imageName| >= 3 && imageName !in owners && Shortens(ids, imageName)
  }

  /** When its name and normal form are taken from an image, a reference that meant this image by name
      means nothing exactly if it does not begin the ID of just one image left, and its normal form
      is no ID and begins none either, and no other image's name. */
  lemma UnreferencedMeansNothingIff(t: Table, owners: map<Name, Id>, t': Table, owners': map<Name, Id>,
                                    id: Id, imageName: Name, normalize: Name -> Option<Name>)
    requires Inverse(owners, t) && Meant(t.Keys, owners, normalize, imageName) == Some(id) && !(imageName <= id)
    requires id in t && normalize(imageName).Some?
    requires Unreferenced(t, owners, t', owners', id, imageName, normalize(imageName).value)
    ensures var normalName := normalize(imageName).value;
      && (Meant(t'.Keys, owners', normalize, imageName) == None <==>
            !BeginsOne(t'.Keys, owners', imageName) && Found(t'.Keys, owners', normalName) == None)
      && (normalName !in t ==> normalName !in owners')
  {
    var ids, found := t'.Keys, Found(t'.Keys, owners', imageName);
    assert found.Some? && |imageName| >= 3 && imageName <= found.value ==> BeginsOne(ids, owners', imageName) by {
      if imageName in owners' {
        assert Found(t.Keys, owners, imageName) == Some(owners[imageName]) || imageName in t;
      }
    }
    assert |imageName| >= 3 ==> imageName !in t;
  }

  /** Some names of the image are gone, and it may be gone itself; nothing else has changed. */
  ghost predicate Less(ids: set<Id>, owners: map<Name, Id>, ids': set<Id>, owners': map<Name, Id>, id: Id) {
    && (ids' == ids || ids' == ids - {id})
    && (forall n :: n in owners' ==> n in owners && owners'[n] == owners[n])
    && forall n :: n in owners && n !in owners' ==> owners[n] == id
  }

  /** A reference that meant another image goes on to mean it, unless it has come to begin the ID of
      just one. */
  ghost predicate OthersMean(ids: set<Id>, owners: map<Name, Id>, ids': set<Id>, owners': map<Name, Id>,
                             normalize: Name -> Option<Name>, id: Id)
  {
    forall n :: Meant(ids, owners, normalize, n) !in [None, Some(id)] ==>
      || Meant(ids', owners', normalize, n) == Meant(ids, owners, normalize, n)
      || (BeginsOne(ids', owners', n) && !BeginsOne(ids, owners, n))
  }

  lemma OthersGoOn(ids: set<Id>, owners: map<Name, Id>, ids': set<Id>, owners': map<Name, Id>,
                   normalize: Name -> Option<Name>, id: Id)
    requires Less(ids, owners, ids', owners', id) && forall n :: n in owners ==> owners[n] in ids
    ensures OthersMean(ids, owners, ids', owners', normalize, id)
  {
    forall n | Meant(ids, owners, normalize, n) !in [None, Some(id)]
      ensures Meant(ids', owners', normalize, n) == Meant(ids, owners, normalize, n)
           || (BeginsOne(ids', owners', n) && !BeginsOne(ids, owners, n))
    {
      OtherGoesOn(ids, owners, ids', owners', normalize, id, n);
    }
  }

  lemma OtherGoesOn(ids: set<Id>, owners: map<Name, Id>, ids': set<Id>, owners': map<Name, Id>,
                    normalize: Name -> Option<Name>, id: Id, n: Name)
    requires Less(ids, owners, ids', owners', id) && (forall m :: m in owners ==> owners[m] in ids)
    requires Meant(ids, owners, normalize, n) !in [None, Some(id)]
    ensures Meant(ids', owners', normalize, n) == Meant(ids, owners, normalize, n)
         || (BeginsOne(ids', owners', n) && !BeginsOne(ids, owners, n))
  {
    FoundGoesOn(ids, owners, ids', owners', id, n);
    if normalize(n).Some? {
      FoundGoesOn(ids, owners, ids', owners', id, normalize(n).value);
    }
  }

  lemma FoundGoesOn(ids: set<Id>, owners: map<Name, Id>, ids': set<Id>, owners': map<Name, Id>, id: Id, key: string)
    requires Less(ids, owners, ids', owners', id) && forall m :: m in owners ==> owners[m] in ids
    ensures Found(ids, owners, key) !in [None, Some(id)] ==> Found(ids', owners', key) == Found(ids, owners, key)
  {
    if key !in ids && key !in owners && Shortens(ids, key) && Found(ids, owners, key) != Some(id) {
      var other := Found(ids, owners, key).value;
      assert other in ids' && key <= other;
      assert UniquePrefix(ids', key);
    }
  }

  lemma UnrefedMeans(t: Table, owners: map<Name, Id>, t': Table, owners': map<Name, Id>,
                     id: Id, imageName: Name, normalize: Name -> Option<Name>)
    requires Inverse(owners, t) && Meant(t.Keys, owners, normalize, imageName) == Some(id)
    requires Unrefed(t, owners, t', owners', id, imageName, normalize)
    ensures OthersMean(t.Keys, owners, t'.Keys, owners', normalize, id)
    ensures !(imageName <= id) ==>
      (Meant(t'.Keys, owners', normalize, imageName) == None <==>
         !BeginsOne(t'.Keys, owners', imageName) && Found(t'.Keys, owners', normalize(imageName).value) == None)
  {
    if imageName <= id {
      OwnersOf(owners, t, id);
    } else {
      UnreferencedMeansNothingIff(t, owners, t', owners', id, imageName, normalize);
    }
    assert Less(t.Keys, owners, t'.Keys, owners', id);
    OthersGoOn(t.Keys, owners, t'.Keys, owners', normalize, id);
  }

  /** The reference "abc" meant the image "y"; once its names are taken away, it means another image,
      whose ID happens to begin so. */
  lemma ReferenceMovesOn(normalize: Name -> Option<Name>)
    requires normalize("abc") == Some("n/abc")
    ensures var t: Table := map["y" := ["abc", "n/abc"], "abcd" := []];
      var owners := map["abc" := "y", "n/abc" := "y"];
      && Inverse(owners, t) && Meant(t.Keys, owners, normalize, "abc") == Some("y")
      && Unreferenced(t, owners, t - {"y"}, map[], "y", "abc", "n/abc")
      && Meant((t - {"y"}).Keys, map[], normalize, "abc") == Some("abcd")
  {
    var t: Table := map["y" := ["abc", "n/abc"], "abcd" := []];
    assert t["y"][0] == "abc" && t["y"][1] == "n/abc";
    assert (t - {"y"}).Keys == {"abcd"};
    assert "abcd" in {"abcd"} && "abc" <= "abcd";
    assert "y"[0] == 'y' && "abc"[0] == 'a';
  }
}
