/** The image store in daemon mode: image objects shared by a list and two tables, and one
    record file per image. */
module ImageStore {
  import opened Names
  import opened Slices
  import opened Options

  datatype Result = Ok | Err(error: Error)

  datatype Error =
    | ImageUnknown
    | DuplicateID
    | DuplicateName
    | LoserNotSaved   // the record of the image that lost a name could not be written
    | NotSaved        // the record of the image itself could not be written
    | NotRemoved      // the directory of the image's record could not be removed

  class Image {
    const id: Id
    var names: seq<Name>

    constructor (id: Id, names: seq<Name>)
      ensures this.id == id && this.names == names
    {
      this.id := id;
      this.names := names;
    }
  }

  class ImageStore {
    var byid: map<Id, Image>
    var byname: map<Name, Image>
    var disk: Table                    // the names in each image's record file

    // What the file system answers at present; it may change from call to call.
    var unwritable: set<Id>            // images whose record cannot be written
    var stuckFiles: set<Id>            // images whose record file cannot be removed
    var stuckDirs: set<Id>             // images whose record file can be removed, but not its directory

    ghost var repr: set<Image>
    ghost var listed: Table            // the names each image lists
    ghost var owners: map<Name, Id>    // byname, by image ID
    ghost var writes: seq<Table>       // what the record files held after each write so far

    ghost predicate Shape()
      reads this, repr
    {
      && byid.Keys == listed.Keys
      && (forall id :: id in byid ==> byid[id] in repr && byid[id].id == id && byid[id].names == listed[id])
      && byname.Keys == owners.Keys
      && (forall n :: n in byname ==> owners[n] in byid && byname[n] == byid[owners[n]])
    }

    ghost predicate Valid()
      reads this, repr
    {
      Shape() && Inverse(owners, listed)
    }

    ghost function State(): NameState
      reads `listed, `owners, `disk, `writes
    {
      NameState(listed, owners, disk, writes)
    }

    /** A restart would load just what is in memory. */
    ghost predicate InStep()
      reads `disk, `listed
    {
      disk == listed
    }

    function Lookup(id: Id): (r: Option<Image>)
      requires Shape()
      reads this, repr
      ensures r.Some? ==> r.value in repr && r.value.id in byid && byid[r.value.id] == r.value
      ensures r.None? <==> id !in listed && id !in owners
      ensures r.Some? ==> r.value.id == if id in listed then id else owners[id]
    {
      if id in byid then Some(byid[id]) else if id in byname then Some(byname[id]) else None
    }

    /** Replaces the record file of one image in one step, or not at all. */
    method SaveImage(image: Image) returns (saved: bool)
      modifies this`disk, this`writes
      ensures saved == (image.id !in unwritable)
      ensures disk == if saved then old(disk)[image.id := image.names] else old(disk)
      ensures writes == if saved then old(writes) + [disk] else old(writes)
    {
      saved := image.id !in unwritable;
      if saved {
        disk := disk[image.id := image.names];
        writes := writes + [disk];
      }
    }

    /** Drops the image's own names from the index. */
    method ForgetNames(image: Image)
      requires Shape() && image.id in byid && byid[image.id] == image
      modifies this`byname, this`owners
      ensures Shape()
      ensures owners == old(owners) - set n | n in image.names
    {
      for k := 0 to |image.names|
        invariant Shape()
        invariant owners == old(owners) - set n | n in image.names[..k]
      {
        assert image.names[..k + 1] == image.names[..k] + [image.names[k]];
        byname, owners := byname - {image.names[k]}, owners - {image.names[k]};
      }
      assert image.names[..|image.names|] == image.names;
    }

    method RemoveName(image: Image, name: Name)
      requires Shape() && image.id in byid && byid[image.id] == image
      modifies this`listed, image`names
      ensures Shape()
      ensures listed == old(listed)[image.id := Without(old(listed)[image.id], name)]
    {
      image.names := Without(image.names, name);
      listed := listed[image.id := image.names];
    }

    /** One turn of the renaming loops: the image that has the name loses it, its record being
        saved if asked for, and the index gives the name to `image`. */
    method TakeName(image: Image, name: Name, saveLoser: bool) returns (saved: bool)
      requires Shape() && image.id in byid && byid[image.id] == image
      modifies this`byname, this`disk, this`listed, this`owners, this`writes, repr
      ensures Shape()
      ensures saved ==> State() == TakeOne(old(State()), image.id, name, saveLoser)
      ensures !saved <==> saveLoser && LoserStuck(old(owners), name, unwritable)
      ensures !saved ==> State() == old(State()).(listed := Stripped(old(listed), old(owners), name))
    {
      saved := true;
      if name in byname {
        saved := LoseName(byname[name], name, saveLoser);
        if !saved {
          return;
        }
      }
      byname, owners := byname[name := image], owners[name := image.id];
    }

    method LoseName(otherImage: Image, name: Name, save: bool) returns (saved: bool)
      requires Shape() && otherImage.id in byid && byid[otherImage.id] == otherImage
      modifies this`disk, this`listed, this`writes, otherImage`names
      ensures Shape()
      ensures listed == old(listed)[otherImage.id := Without(old(listed)[otherImage.id], name)]
      ensures !saved <==> save && otherImage.id in unwritable
      ensures disk == if save && saved then old(disk)[otherImage.id := listed[otherImage.id]] else old(disk)
      ensures writes == if save && saved then old(writes) + [disk] else old(writes)
    {
      RemoveName(otherImage, name);
      saved := true;
      if save {
        saved := SaveImage(otherImage);
      }
    }

    /** The renaming loop, up to the first record that cannot be written. */
    method TakeNames(image: Image, names: seq<Name>, saveLosers: bool) returns (saved: bool, ghost failedAt: nat)
      requires Shape() && image.id in byid && byid[image.id] == image
      modifies this`byname, this`disk, this`listed, this`owners, this`writes, repr
      ensures Shape()
      ensures saved ==> State() == TakeAll(old(State()), image.id, names, saveLosers)
      ensures !saved ==> saveLosers && StoppedAt(old(State()), State(), image.id, names, failedAt)
      ensures saveLosers ==> if saved then NoneStuck(old(State()), image.id, names, unwritable)
                             else StuckAt(old(State()), image.id, names, unwritable, failedAt)
    {
      saved, failedAt := true, 0;
      ghost var start := State();
      for k := 0 to |names|
        invariant Shape()
        invariant State() == TakeAll(start, image.id, names[..k], saveLosers)
        invariant saveLosers ==> NoneStuck(start, image.id, names[..k], unwritable)
      {
        NoneStuckNext(start, image.id, names, unwritable, k);
        saved := TakeTurn(image, names, k, saveLosers, start);
        if !saved {
          failedAt := k;
          return;
        }
      }
      assert names[..|names|] == names;
    }

    method TakeTurn(image: Image, names: seq<Name>, k: nat, saveLosers: bool,
                    ghost start: NameState) returns (saved: bool)
      requires Shape() && image.id in byid && byid[image.id] == image && k < |names|
      requires State() == TakeAll(start, image.id, names[..k], saveLosers)
      modifies this`byname, this`disk, this`listed, this`owners, this`writes, repr
      ensures Shape()
      ensures saved ==> State() == TakeAll(start, image.id, names[..k + 1], saveLosers)
      ensures !saved ==> saveLosers && StoppedAt(start, State(), image.id, names, k)
      ensures saveLosers ==> (saved <==> !StuckAt(start, image.id, names, unwritable, k))
    {
      assert names[..k + 1][..k] == names[..k];
      saved := TakeName(image, names[k], saveLosers);
    }

    /** Puts down the image's own list, in memory and in its record. */
    method Finish(image: Image, names: seq<Name>) returns (saved: bool)
      requires Shape() && image.id in byid && byid[image.id] == image
      modifies this`disk, this`listed, this`writes, image`names
      ensures Shape()
      ensures saved == (image.id !in unwritable)
      ensures listed == old(listed)[image.id := names]
      ensures disk == if saved then old(disk)[image.id := names] else old(disk)
      ensures writes == if saved then old(writes) + [disk] else old(writes)
    {
      image.names := names;
      listed := listed[image.id := names];
      saved := SaveImage(image);
    }

    method SetNames(id: Id, newNames: seq<Name>) returns (r: Result)
      requires Valid()
      modifies this`byname, this`disk, this`listed, this`owners, this`writes, repr
      ensures Valid()
      ensures r == Err(ImageUnknown) <==> old(Lookup(id)).None?
      ensures var image := old(Lookup(id)); image.Some? ==>
        r == if image.value.id in unwritable then Err(NotSaved) else Ok
      ensures old(Lookup(id)).None? ==> State() == old(State())
      ensures var image := old(Lookup(id)); image.Some? ==> var names := Dedupe(newNames);
        && listed == Renamed(old(listed), image.value.id, names)
        && owners == Reindexed(old(owners), old(listed), image.value.id, names)
        && (r.Ok? ==> State() == SetIn(old(State()), image.value.id, names))
        && (!r.Ok? ==> disk == old(disk) && writes == old(writes))
    {
      var image? := Lookup(id);
      if image?.None? {
        return Err(ImageUnknown);
      }
      var image := image?.value;
      var names := Dedupe(newNames);
      TakeAllRenames(State(), image.id, names, false);
      ForgetNames(image);
      var _, _ := TakeNames(image, names, false);
      var saved := Finish(image, names);
      r := if saved then Ok else Err(NotSaved);
    }

    method AddName(id: Id, name: Name) returns (r: Result)
      requires Valid()
      modifies this`byname, this`disk, this`listed, this`owners, this`writes, repr
      ensures r == Err(ImageUnknown) <==> old(Lookup(id)).None?
      ensures var image := old(Lookup(id)); image.Some? ==>
        r == AddResult(old(owners), image.value.id, name)
      ensures old(Lookup(id)).None? ==> State() == old(State())
      ensures r != Err(LoserNotSaved) ==> Valid()
      // The name goes to the image, in memory and on disk.
      ensures var image := old(Lookup(id)); image.Some? && r != Err(LoserNotSaved) ==>
        listed == AddedName(old(listed), image.value.id, name)
      ensures var image := old(Lookup(id)); r.Ok? && image.Some? ==>
        State() == AddedIn(old(State()), image.value.id, name)
      ensures r.Ok? && old(InStep()) ==> InStep()
      // If the record of the former owner cannot be written, the index is left as it was,
      // naming an image that no longer lists the name.
      ensures r == Err(LoserNotSaved) ==>
        name in owners && State() == old(State()).(listed := Stripped(old(listed), old(owners), name))
      // Success or not, no write ever leaves a name in two records.
      ensures old(InStep()) ==> NewWritesExclusive(old(writes), writes)
    {
      var image? := Lookup(id);
      if image?.None? {
        return Err(ImageUnknown);
      }
      r := AddNameTo(image?.value, name);
    }

    /** The former owner's record comes first, then the image's own. */
    ghost function AddResult(index: map<Name, Id>, id: Id, name: Name): Result
      reads `unwritable
    {
      if name in index && index[name] != id && index[name] in unwritable then Err(LoserNotSaved)
      else if id in unwritable then Err(NotSaved)
      else Ok
    }

    method AddNameTo(image: Image, name: Name) returns (r: Result)
      requires Valid() && image.id in byid && byid[image.id] == image
      modifies this`byname, this`disk, this`listed, this`owners, this`writes, repr
      ensures r == AddResult(old(owners), image.id, name)
      ensures r != Err(LoserNotSaved) ==> Valid() && listed == AddedName(old(listed), image.id, name)
      ensures r.Ok? ==> State() == AddedIn(old(State()), image.id, name)
      ensures r.Ok? && old(InStep()) ==> InStep()
      ensures r == Err(LoserNotSaved) ==>
        name in owners && State() == old(State()).(listed := Stripped(old(listed), old(owners), name))
      ensures old(InStep()) ==> NewWritesExclusive(old(writes), writes)
    {
      var names := Dedupe(image.names + [name]);
      ghost var start := State();
      AddNameDone(start, image.id, name);
      var saved := TakeForAdd(image, names, name);
      if !saved {
        return Err(LoserNotSaved);
      }
      r := FinishAdd(image, names, name, start);
    }

    /** The names go to the image, but for the last write. */
    method TakeForAdd(image: Image, names: seq<Name>, ghost name: Name) returns (saved: bool)
      requires Valid() && image.id in byid && byid[image.id] == image && names == Dedupe(listed[image.id] + [name])
      modifies this`byname, this`disk, this`listed, this`owners, this`writes, repr
      ensures Shape()
      ensures saved ==> State() == TakeAll(Forgotten(old(State()), image.id), image.id, names, true)
      ensures !saved <==> name in old(owners) && old(owners)[name] != image.id && old(owners)[name] in unwritable
      ensures !saved ==>
        name in owners && State() == old(State()).(listed := Stripped(old(listed), old(owners), name))
    {
      ghost var start := State();
      ForgetNames(image);
      ghost var failedAt;
      saved, failedAt := TakeNames(image, names, true);
      AddStuckIff(start, image.id, name, unwritable, saved, failedAt);
      if !saved {
        AddStoppedAt(start, State(), image.id, name, failedAt);
      }
    }

    method FinishAdd(image: Image, names: seq<Name>, ghost name: Name, ghost start: NameState) returns (r: Result)
      requires Shape() && image.id in byid && byid[image.id] == image
      requires Inverse(start.owners, start.listed) && image.id in start.listed
      requires names == Dedupe(start.listed[image.id] + [name])
      requires State() == TakeAll(Forgotten(start, image.id), image.id, names, true)
      modifies this`disk, this`listed, this`writes, image`names
      ensures r == if image.id in unwritable then Err(NotSaved) else Ok
      ensures Valid() && listed == AddedName(start.listed, image.id, name)
      ensures r.Ok? ==> State() == AddedIn(start, image.id, name)
      ensures start.disk == start.listed ==> NewWritesExclusive(start.writes, writes) && (r.Ok? ==> InStep())
    {
      AddNameDone(start, image.id, name);
      var saved := Finish(image, names);
      r := if saved then Ok else Err(NotSaved);
    }

    /** An empty ID asks for a random one, which is drawn until it is a new one: `random`. */
    method Create(givenID: Id, random: Id, givenNames: seq<Name>) returns (r: Result)
      requires Valid() && random !in byid
      modifies this`byid, this`byname, this`disk, this`repr, this`listed, this`owners, this`writes
      ensures Valid() && fresh(repr - old(repr))
      ensures var id := if givenID == "" then random else givenID;
        if id in old(byid) then r == Err(DuplicateID)
        else if exists n :: n in givenNames && n in old(owners) then r == Err(DuplicateName)
        else r == if id in unwritable then Err(NotSaved) else Ok
      ensures r == Err(DuplicateID) || r == Err(DuplicateName) ==> State() == old(State())
      ensures var id := if givenID == "" then random else givenID;
        && (r.Ok? ==> State() == CreatedIn(old(State()), id, Dedupe(givenNames)))
        && (r == Err(NotSaved) ==>
              State() == CreatedIn(old(State()), id, Dedupe(givenNames)).(disk := old(disk), writes := old(writes)))
      ensures old(InStep()) ==> NewWritesExclusive(old(writes), writes) && (r != Err(NotSaved) ==> InStep())
    {
      var id := if givenID == "" then random else givenID;
      if id in byid {
        return Err(DuplicateID);
      }
      var names := Dedupe(givenNames);
      if exists n :: n in names && n in byname {
        return Err(DuplicateName);
      }
      ghost var before := writes;
      r := CreateNew(id, names);
      WrittenInStep(before, writes, disk, owners, listed);
    }

    method CreateNew(id: Id, names: seq<Name>) returns (r: Result)
      requires Valid() && id !in byid && NoRepeat(names)
      requires forall n :: n in names ==> n !in owners
      modifies this`byid, this`byname, this`disk, this`repr, this`listed, this`owners, this`writes
      ensures Valid() && fresh(repr - old(repr))
      ensures r == if id in unwritable then Err(NotSaved) else Ok
      ensures listed == old(listed)[id := names] && owners == Indexed(old(owners), id, names)
      ensures disk == if r.Ok? then old(disk)[id := names] else old(disk)
      ensures writes == if r.Ok? then old(writes) + [disk] else old(writes)
    {
      ghost var start := State();
      var image := Register(id, names);
      IndexNames(image);
      var saved := SaveImage(image);
      CreatedInverse(start.owners, start.listed, id, names);
      r := if saved then Ok else Err(NotSaved);
    }

    /** A new image object, in the table but with none of its names in the index. */
    method Register(id: Id, names: seq<Name>) returns (image: Image)
      requires Shape() && id !in byid
      modifies this`byid, this`listed, this`repr
      ensures Shape() && fresh(repr - old(repr)) && old(repr) <= repr
      ensures fresh(image) && image.names == names
      ensures byid == old(byid)[id := image] && listed == old(listed)[id := names] && image.id == id
    {
      image := new Image(id, names);
      repr := repr + {image};
      byid, listed := byid[id := image], listed[id := names];
    }

    method IndexNames(image: Image)
      requires Shape() && image.id in byid && byid[image.id] == image
      modifies this`byname, this`owners
      ensures Shape()
      ensures owners == Indexed(old(owners), image.id, image.names)
    {
      IndexedNone(owners, image.id);
      for k := 0 to |image.names|
        invariant Shape()
        invariant owners == Indexed(old(owners), image.id, image.names[..k])
      {
        IndexedStep(old(owners), image.id, image.names[..k], image.names[k]);
        assert image.names[..k + 1] == image.names[..k] + [image.names[k]];
        byname, owners := byname[image.names[k] := image], owners[image.names[k] := image.id];
      }
      assert image.names[..|image.names|] == image.names;
    }

    method Delete(id: Id) returns (r: Result)
      requires Valid()
      modifies this`byid, this`byname, this`disk, this`listed, this`owners, this`writes
      ensures Valid()
      ensures r == Err(ImageUnknown) <==> old(Lookup(id)).None?
      ensures var image := old(Lookup(id)); image.Some? ==>
        r == if image.value.id in stuckFiles + stuckDirs then Err(NotRemoved) else Ok
      ensures old(Lookup(id)).None? ==> State() == old(State())
      // In memory the image is gone even if its record or directory is not.
      ensures var image := old(Lookup(id)); image.Some? ==> var deleted := DeletedIn(old(State()), image.value.id);
        State() == if image.value.id in stuckFiles then deleted.(disk := old(disk), writes := old(writes)) else deleted
      ensures old(InStep()) ==> NewWritesExclusive(old(writes), writes) && (r != Err(NotRemoved) ==> InStep())
    {
      var image? := Lookup(id);
      if image?.None? {
        return Err(ImageUnknown);
      }
      var image := image?.value;
      ghost var before := writes;
      DeletedInverse(owners, listed, image.id);
      DeletedUnpointed(owners, listed, image.id);
      var removed := RemoveImage(image);
      WrittenInStep(before, writes, disk, owners, listed);
      r := if removed then Ok else Err(NotRemoved);
    }

    method RemoveImage(image: Image) returns (removed: bool)
      requires Shape() && image.id in byid && byid[image.id] == image
      requires forall n :: n in owners && n !in image.names ==> owners[n] != image.id
      modifies this`byid, this`byname, this`disk, this`listed, this`owners, this`writes
      ensures Shape()
      ensures listed == old(listed) - {image.id} && owners == old(owners) - set n | n in image.names
      ensures removed == (image.id !in stuckFiles + stuckDirs)
      ensures if image.id in stuckFiles then disk == old(disk) && writes == old(writes)
              else disk == old(disk) - {image.id} && writes == old(writes) + [disk]
    {
      ForgetNames(image);
      byid, listed := byid - {image.id}, listed - {image.id};
      removed := RemoveRecord(image.id);
    }

    /** Removes the directory of an image's record; when that fails the record file may be left or not. */
    method RemoveRecord(id: Id) returns (removed: bool)
      modifies this`disk, this`writes
      ensures removed == (id !in stuckFiles + stuckDirs)
      ensures if id in stuckFiles then disk == old(disk) && writes == old(writes)
              else disk == old(disk) - {id} && writes == old(writes) + [disk]
    {
      removed := id !in stuckFiles && id !in stuckDirs;
      if id !in stuckFiles {
        disk := disk - {id};
        writes := writes + [disk];
      }
    }

    /** The file system answers differently from now on. */
    method Turn(unwritable: set<Id>, stuckFiles: set<Id>, stuckDirs: set<Id>)
      modifies this`unwritable, this`stuckFiles, this`stuckDirs
      ensures this.unwritable == unwritable && this.stuckFiles == stuckFiles && this.stuckDirs == stuckDirs
    {
      this.unwritable, this.stuckFiles, this.stuckDirs := unwritable, stuckFiles, stuckDirs;
    }

    /** Loading the record files, in the order the directory walk found them. */
    constructor Load(records: seq<Record>, disk: Table)
      requires Listing(records, disk)
      ensures Valid() && fresh(repr)
      ensures listed == Loaded(records, |records|) && owners == LoadedIndex(records, |records|)
      // A conflict is resolved in memory only: the record written is not the one that lost.
      ensures this.disk == disk
    {
      byid, byname, this.disk, repr, listed, owners, writes := map[], map[], disk, {}, map[], map[], [];
      new;
      TakeRecords(records);
      LoadedInverse(records, |records|);
    }

    method TakeRecords(records: seq<Record>)
      requires Shape() && repr == {} && listed == map[] && owners == map[] && Listing(records, disk)
      modifies this
      ensures Shape() && fresh(repr)
      ensures listed == Loaded(records, |records|) && owners == LoadedIndex(records, |records|)
      ensures disk == old(disk)
    {
      ghost var t := disk;
      for k := 0 to |records|
        invariant Shape()
        invariant fresh(repr)
        invariant listed == Loaded(records, k) && owners == LoadedIndex(records, k)
        invariant disk == t
      {
        ghost var before := repr;
        TakeNext(records, k);
        assert fresh(repr - before) && fresh(before);
        assert repr <= before + (repr - before);
      }
    }

    method TakeNext(records: seq<Record>, k: nat)
      requires Shape() && k < |records| && Listing(records, disk)
      requires listed == Loaded(records, k) && owners == LoadedIndex(records, k)
      modifies this, repr
      ensures Shape() && fresh(repr - old(repr))
      ensures listed == Loaded(records, k + 1) && owners == LoadedIndex(records, k + 1)
      ensures disk == old(disk)
    {
      LoadStep(records, disk, k);
      TakeRecord(records[k]);
    }

    /** One record of the loading loop: whoever has one of its names loses it. */
    method TakeRecord(r: Record)
      requires Shape() && Inverse(owners, listed) && r.id !in listed && NoRepeat(r.names)
      requires r.id in disk && disk[r.id] == r.names
      modifies this, repr
      ensures Shape() && fresh(repr - old(repr))
      ensures listed == TakenIn(old(listed), r) && owners == TakenInIndex(old(owners), old(listed), r)
      ensures disk == old(disk)
      // A conflict makes it write the record of this image again, which changes nothing.
      ensures writes == old(writes) +
        if (exists n :: n in r.names && n in old(owners)) && r.id !in unwritable then [disk] else []
    {
      ghost var start := State();
      var image, conflicts := RegisterTaking(r);
      assert listed == TakenIn(start.listed, r) && disk == start.disk && writes == start.writes
          && owners == TakenInIndex(start.owners, start.listed, r) by {
        LoadTurn(start, r);
      }
      Rewrite(image, conflicts);
    }

    /** Writes a record that the disk has already. */
    method Rewrite(image: Image, conflicts: bool)
      requires image.id in disk && disk[image.id] == image.names
      modifies this`disk, this`writes
      ensures disk == old(disk)
      ensures writes == old(writes) + if conflicts && image.id !in unwritable then [disk] else []
    {
      if conflicts {
        var _ := SaveImage(image);
      }
    }

    method RegisterTaking(r: Record) returns (image: Image, conflicts: bool)
      requires Shape() && r.id !in listed
      modifies this, repr
      ensures Shape() && fresh(repr - old(repr))
      ensures image.id == r.id && image in repr && r.id in byid && byid[r.id] == image
      ensures State() == TakeAll(old(State()).(listed := old(listed)[r.id := r.names]), r.id, r.names, false)
      ensures conflicts <==> exists n :: n in r.names && n in old(owners)
    {
      image := Register(r.id, r.names);
      conflicts := exists n :: n in r.names && n in byname;
      var _, _ := TakeNames(image, r.names, false);
    }
  }
}
