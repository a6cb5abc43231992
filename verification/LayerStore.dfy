/** The layer store: a list of layer records, tables by ID and by name, an index per digest kind,
    and the mount counts in the run directory. */
module LayerStore {
  import opened DigestIndex
  import opened LayerObjects
  import opened MountFiles
  import opened Options
  import opened Slices
  import Names

  type Id = string

  type Name = string

  datatype Result = Ok | Err(error: Error)

  datatype Error =
    | LayerUnknown
    | DuplicateID
    | DuplicateName
    | DriverRefused       // the driver could not make the layer
    | NotSaved            // the record could not be written
    | StillMounted        // an unmount failed
    | DataNotRemoved      // the record is gone, but the driver could not remove the data
    | RecordNotRemoved    // the record is gone from memory, but not its directory

  datatype LayerTables = LayerTables(order: seq<Id>, listed: Names.Table, owners: map<Name, Id>,
                                     compressed: map<Id, Digest>, uncompressed: map<Id, Digest>)

  /** What making a layer meets. */
  datatype MakeEnv = MakeEnv(driverMakes: bool, recordSaves: bool)

  /** What deleting a layer meets: the answers to each unmount, and whether data and record can go. */
  datatype DeleteEnv = DeleteEnv(unmounts: nat -> UnmountEnv, dataGoes: bool, recordGoes: bool)

  /** Of the unmounts of a layer mounted `n` times, the one with number `k` fails. */
  ghost predicate Fails(unmounts: nat -> UnmountEnv, n: int, k: nat) {
    !unmounts(k).canWrite || (k == n - 1 && unmounts(k).put.PutFailed?)
  }

  /** The tables without one layer: out of the list once, and nowhere else. */
  ghost function Gone(t: LayerTables, id: Id): LayerTables
    requires id in t.listed
  {
    LayerTables(Without(t.order, id), t.listed - {id}, t.owners - (set n | n in t.listed[id]),
                t.compressed - {id}, t.uncompressed - {id})
  }

  /** Nothing of the layer is left, and nothing else has changed. */
  lemma GoneMeans(t: LayerTables, id: Id)
    requires id in t.listed
    ensures var t' := Gone(t, id);
      && (forall x :: x in t'.order <==> x in t.order && x != id)
      && (forall x :: x in t'.listed <==> x in t.listed && x != id)
      && (forall x :: x in t'.listed ==> t'.listed[x] == t.listed[x])
      && (forall n :: n in t'.owners <==> n in t.owners && n !in t.listed[id])
      && (forall n :: n in t'.owners ==> t'.owners[n] == t.owners[n])
      && (forall x :: x in t'.compressed <==> x in t.compressed && x != id)
      && (forall x :: x in t'.compressed ==> t'.compressed[x] == t.compressed[x])
      && (forall x :: x in t'.uncompressed <==> x in t.uncompressed && x != id)
      && (forall x :: x in t'.uncompressed ==> t'.uncompressed[x] == t.uncompressed[x])
  {
    WithoutFacts(t.order, id);
  }

  class LayerStore {
    var layers: seq<Layer>
    var byid: map<Id, Layer>
    var byname: map<Name, Layer>
    var bycompressedsum: Index
    var byuncompressedsum: Index
    const rundir: RunDir

    ghost var repr: set<Layer>
    ghost var order: seq<Id>                 // the IDs in the list
    ghost var listed: Names.Table            // the names each layer lists
    ghost var owners: map<Name, Id>          // byname, by layer ID
    ghost var compressed: map<Id, Digest>    // the digests each layer carries
    ghost var uncompressed: map<Id, Digest>

    ghost predicate Shape()
      reads `layers, `byid, `byname, `repr, `order, `listed, `owners, `compressed, `uncompressed
      reads repr`names, repr`compressedDigest, repr`uncompressedDigest
    {
      ListAgrees(layers, order, byid) && NamesAgree(byname, owners, byid) && Mirrored(byid)
    }

    /** The ghost tables say what the layer objects in the table hold. */
    ghost predicate Mirrored(table: map<Id, Layer>)
      reads `repr, `listed, `compressed, `uncompressed, repr`names, repr`compressedDigest, repr`uncompressedDigest
    {
      && (forall id :: id in listed || id in compressed || id in uncompressed ==> id in table)
      && forall id :: id in table ==>
           && id in listed && id in compressed && id in uncompressed
           && table[id] in repr && table[id].id == id && Holds(table[id], listed[id], compressed[id], uncompressed[id])
    }

    ghost predicate Holds(layer: Layer, names: seq<Name>, compressedDigest: Digest, uncompressedDigest: Digest)
      reads layer`names, layer`compressedDigest, layer`uncompressedDigest
    {
      && layer.names == names
      && layer.compressedDigest == compressedDigest && layer.uncompressedDigest == uncompressedDigest
    }

    /** List, tables and indexes agree. */
    ghost predicate Valid()
      reads `layers, `byid, `byname, `repr, `order, `listed, `owners, `compressed, `uncompressed
      reads `bycompressedsum, `byuncompressedsum, repr`names, repr`compressedDigest, repr`uncompressedDigest
    {
      && Shape()
      && Names.Inverse(owners, listed)
      && Agrees(bycompressedsum, compressed)
      && Agrees(byuncompressedsum, uncompressed)
    }

    constructor (rundir: RunDir)
      ensures Valid() && repr == {} && this.rundir == rundir && order == []
    {
      this.rundir := rundir;
      layers, byid, byname, bycompressedsum, byuncompressedsum := [], map[], map[], map[], map[];
      repr, order, listed, owners, compressed, uncompressed := {}, [], map[], map[], map[], map[];
    }

    function Lookup(id: Id): (r: Option<Layer>)
      requires Shape()
      reads `layers, `byid, `byname, `repr, `order, `listed, `owners, `compressed, `uncompressed
      reads repr`names, repr`compressedDigest, repr`uncompressedDigest
      ensures r.Some? ==> r.value in repr && r.value.id in byid && byid[r.value.id] == r.value
      ensures r.None? <==> id !in listed && id !in owners
      ensures r.Some? ==> r.value.id == if id in listed then id else owners[id]
    {
      if id in byid then Some(byid[id]) else if id in byname then Some(byname[id]) else None
    }

    // ---- Put and ApplyDiff ----

    /** Records a new layer without digests. An empty ID asks for a random one, which is drawn until
        it is a new one: `random`. If the record cannot be written the layer stays in the tables,
        although its data are removed. */
    method Put(givenID: Id, random: Id, givenNames: seq<Name>, env: MakeEnv) returns (r: Result)
      requires Valid() && random !in byid
      modifies this
      ensures Valid() && fresh(repr - old(repr))
      ensures var id := if givenID == "" then random else givenID;
        if id in old(byid) then r == Err(DuplicateID)
        else if exists n :: n in givenNames && n in old(owners) then r == Err(DuplicateName)
        else r == if !env.driverMakes then Err(DriverRefused) else if !env.recordSaves then Err(NotSaved) else Ok
      ensures var id := if givenID == "" then random else givenID;
        r.Ok? || r == Err(NotSaved) ==>
          && order == old(order) + [id]
          && listed == old(listed)[id := Names.Dedupe(givenNames)]
          && owners == Names.Indexed(old(owners), id, Names.Dedupe(givenNames))
          && compressed == old(compressed)[id := ""] && uncompressed == old(uncompressed)[id := ""]
      ensures !(r.Ok? || r == Err(NotSaved)) ==> Tables() == old(Tables())
    {
      var id := if givenID == "" then random else givenID;
      if id in byid {
        return Err(DuplicateID);
      }
      var names := Names.Dedupe(givenNames);
      if exists n :: n in names && n in byname {
        return Err(DuplicateName);
      }
      if !env.driverMakes {
        return Err(DriverRefused);
      }
      Record(id, names);
      r := if env.recordSaves then Ok else Err(NotSaved);
    }

    method Record(id: Id, names: seq<Name>)
      requires Valid() && id !in byid && NoRepeat(names) && forall n :: n in names ==> n !in owners
      modifies this`layers, this`byid, this`byname, this`repr, this`order, this`listed, this`owners
      modifies this`compressed, this`uncompressed
      ensures Valid() && fresh(repr - old(repr))
      ensures order == old(order) + [id]
      ensures listed == old(listed)[id := names] && owners == Names.Indexed(old(owners), id, names)
      ensures compressed == old(compressed)[id := ""] && uncompressed == old(uncompressed)[id := ""]
    {
      ghost var listed0, owners0, compressed0, uncompressed0 := listed, owners, compressed, uncompressed;
      RecordShape(id, names);
      assert Names.Inverse(owners, listed) by {
        Names.CreatedInverse(owners0, listed0, id, names);
      }
      assert Agrees(bycompressedsum, compressed) by {
        InsertedAt(bycompressedsum, compressed0, "", id);
      }
      assert Agrees(byuncompressedsum, uncompressed) by {
        InsertedAt(byuncompressedsum, uncompressed0, "", id);
      }
    }

    method RecordShape(id: Id, names: seq<Name>)
      requires Shape() && id !in byid
      modifies this`layers, this`byid, this`byname, this`repr, this`order, this`listed, this`owners
      modifies this`compressed, this`uncompressed
      ensures Shape() && fresh(repr - old(repr))
      ensures order == old(order) + [id]
      ensures listed == old(listed)[id := names] && owners == Names.Indexed(old(owners), id, names)
      ensures compressed == old(compressed)[id := ""] && uncompressed == old(uncompressed)[id := ""]
    {
      var layer := new Layer(id, names);
      ghost var table := byid;
      AddToTables(layer);
      AddMirror(layer, table);
    }

    method AddToTables(layer: Layer)
      requires ListAgrees(layers, order, byid) && NamesAgree(byname, owners, byid) && layer.id !in byid
      modifies this`layers, this`byid, this`byname, this`order, this`owners
      ensures ListAgrees(layers, order, byid) && NamesAgree(byname, owners, byid)
      ensures byid == old(byid)[layer.id := layer] && order == old(order) + [layer.id]
      ensures owners == Names.Indexed(old(owners), layer.id, layer.names)
    {
      ListAgreesAppend(layers, order, byid, layer);
      NamesAgreeMore(byname, owners, byid, layer);
      layers, order, byid := layers + [layer], order + [layer.id], byid[layer.id := layer];
      IndexNames(layer);
    }

    ghost method AddMirror(layer: Layer, table: map<Id, Layer>)
      requires Mirrored(table) && layer.id !in table && byid == table[layer.id := layer]
      requires layer.compressedDigest == "" && layer.uncompressedDigest == ""
      modifies this`repr, this`listed, this`compressed, this`uncompressed
      ensures Mirrored(byid) && repr == old(repr) + {layer}
      ensures listed == old(listed)[layer.id := layer.names]
      ensures compressed == old(compressed)[layer.id := ""] && uncompressed == old(uncompressed)[layer.id := ""]
    {
      repr := repr + {layer};
      listed := listed[layer.id := layer.names];
      compressed, uncompressed := compressed[layer.id := ""], uncompressed[layer.id := ""];
    }

    method IndexNames(layer: Layer)
      requires layer.id in byid && byid[layer.id] == layer && NamesAgree(byname, owners, byid)
      modifies this`byname, this`owners
      ensures NamesAgree(byname, owners, byid)
      ensures owners == Names.Indexed(old(owners), layer.id, layer.names)
    {
      Names.IndexedNone(owners, layer.id);
      for k := 0 to |layer.names|
        invariant NamesAgree(byname, owners, byid)
        invariant owners == Names.Indexed(old(owners), layer.id, layer.names[..k])
      {
        Names.IndexedStep(old(owners), layer.id, layer.names[..k], layer.names[k]);
        assert layer.names[..k + 1] == layer.names[..k] + [layer.names[k]];
        byname, owners := byname[layer.names[k] := layer], owners[layer.names[k] := layer.id];
      }
      assert layer.names[..|layer.names|] == layer.names;
    }

    /** The digests that unpacking a diff into the layer found; they stay if the record cannot be
        written. */
    method ApplyDiff(to: Id, compressedDigest: Digest, uncompressedDigest: Digest,
                     recordSaves: bool) returns (r: Result)
      requires Valid()
      modifies this`bycompressedsum, this`byuncompressedsum, this`compressed, this`uncompressed, repr
      ensures Valid()
      ensures old(Lookup(to)).None? ==>
        r == Err(LayerUnknown) && compressed == old(compressed) && uncompressed == old(uncompressed)
      ensures var layer := old(Lookup(to)); layer.Some? ==>
        && r == (if recordSaves then Ok else Err(NotSaved))
        && compressed == old(compressed)[layer.value.id := compressedDigest]
        && uncompressed == old(uncompressed)[layer.value.id := uncompressedDigest]
    {
      var found := Lookup(to);
      if found.None? {
        return Err(LayerUnknown);
      }
      ApplyDiffTo(found.value, compressedDigest, uncompressedDigest);
      r := if recordSaves then Ok else Err(NotSaved);
    }

    method ApplyDiffTo(layer: Layer, compressedDigest: Digest, uncompressedDigest: Digest)
      requires Valid() && layer.id in byid && byid[layer.id] == layer
      modifies this`bycompressedsum, this`byuncompressedsum, this`compressed, this`uncompressed
      modifies layer`compressedDigest, layer`uncompressedDigest
      ensures Valid()
      ensures compressed == old(compressed)[layer.id := compressedDigest]
      ensures uncompressed == old(uncompressed)[layer.id := uncompressedDigest]
    {
      SetDigests(layer, compressedDigest, uncompressedDigest);
    }

    method SetDigests(layer: Layer, compressedDigest: Digest, uncompressedDigest: Digest)
      requires Mirrored(byid) && layer.id in byid && byid[layer.id] == layer
      requires Agrees(bycompressedsum, compressed) && Agrees(byuncompressedsum, uncompressed)
      modifies this`bycompressedsum, this`byuncompressedsum, this`compressed, this`uncompressed
      modifies layer`compressedDigest, layer`uncompressedDigest
      ensures layers == old(layers) && order == old(order) && byid == old(byid)
      ensures byname == old(byname) && owners == old(owners) && listed == old(listed)
      ensures Mirrored(byid)
      ensures Agrees(bycompressedsum, compressed) && Agrees(byuncompressedsum, uncompressed)
      ensures compressed == old(compressed)[layer.id := compressedDigest]
      ensures uncompressed == old(uncompressed)[layer.id := uncompressedDigest]
    {
      MoveDigests(layer, compressedDigest, uncompressedDigest);
      WriteDigests(layer, compressedDigest, uncompressedDigest);
      OnlyDigestsOf(layer);
    }

    method MoveDigests(layer: Layer, compressedDigest: Digest, uncompressedDigest: Digest)
      requires layer.id in compressed && compressed[layer.id] == layer.compressedDigest
      requires layer.id in uncompressed && uncompressed[layer.id] == layer.uncompressedDigest
      requires Agrees(bycompressedsum, compressed) && Agrees(byuncompressedsum, uncompressed)
      modifies this`bycompressedsum, this`byuncompressedsum
      ensures layers == old(layers) && order == old(order) && byid == old(byid)
      ensures byname == old(byname) && owners == old(owners) && listed == old(listed)
      ensures compressed == old(compressed) && uncompressed == old(uncompressed)
      ensures Agrees(bycompressedsum, compressed[layer.id := compressedDigest])
      ensures Agrees(byuncompressedsum, uncompressed[layer.id := uncompressedDigest])
    {
      bycompressedsum := MoveDigest(bycompressedsum, compressed, layer.compressedDigest, compressedDigest, layer.id);
      byuncompressedsum :=
        MoveDigest(byuncompressedsum, uncompressed, layer.uncompressedDigest, uncompressedDigest, layer.id);
    }

    method WriteDigests(layer: Layer, compressedDigest: Digest, uncompressedDigest: Digest)
      modifies this`compressed, this`uncompressed, layer`compressedDigest, layer`uncompressedDigest
      ensures layer.compressedDigest == compressedDigest && layer.uncompressedDigest == uncompressedDigest
      ensures compressed == old(compressed)[layer.id := compressedDigest]
      ensures uncompressed == old(uncompressed)[layer.id := uncompressedDigest]
    {
      layer.compressedDigest, layer.uncompressedDigest := compressedDigest, uncompressedDigest;
      compressed := compressed[layer.id := compressedDigest];
      uncompressed := uncompressed[layer.id := uncompressedDigest];
    }

    /** The ghost tables follow when only this layer got other digests. */
    twostate lemma OnlyDigestsOf(layer: Layer)
      requires old(Mirrored(byid)) && layer.id in byid && byid[layer.id] == layer
      requires byid == old(byid) && repr == old(repr) && listed == old(listed) && layer.names == old(layer.names)
      requires compressed == old(compressed)[layer.id := layer.compressedDigest]
      requires uncompressed == old(uncompressed)[layer.id := layer.uncompressedDigest]
      requires forall other :: other in repr && other != layer ==> unchanged(other)
      ensures Mirrored(byid)
    {
      forall id | id in byid
        ensures Holds(byid[id], listed[id], compressed[id], uncompressed[id])
      {
        assert old(Holds(byid[id], listed[id], compressed[id], uncompressed[id]));
      }
    }

    // ---- Delete ----

    /** Deletes a layer. Once its last mount is gone the layer leaves the list, the tables and the
        indexes whatever the driver and the file system then answer. */
    method Delete(id: Id, env: DeleteEnv) returns (r: Result)
      requires Valid() && Positive(rundir.files)
      modifies this, repr, rundir
      ensures Valid() && Positive(rundir.files)
      ensures r == Err(LayerUnknown) <==> old(Lookup(id)).None?
      ensures var layer := old(Lookup(id)); layer.Some? ==>
        r == DeleteResult(env, Count(old(rundir.files), layer.value.id))
      ensures r == Err(LayerUnknown) ==> Tables() == old(Tables()) && rundir.files == old(rundir.files)
      ensures var layer := old(Lookup(id)); layer.Some? ==> var gone := layer.value.id;
        && rundir.files - {gone} == old(rundir.files) - {gone}
        && if r == Err(StillMounted)
           then Tables() == old(Tables()) && StuckAt(env.unmounts, old(rundir.files), rundir.files, gone)
           else
             && Tables() == Gone(old(Tables()), gone)
             && gone !in rundir.files
             && rundir.puts == old(rundir.puts) + (if Count(old(rundir.files), gone) > 0 then 1 else 0)
    {
      var found := Lookup(id);
      if found.None? {
        return Err(LayerUnknown);
      }
      r := DeleteFound(found.value, env);
    }

    /** The mounts go first, then the data, then the record. */
    ghost function DeleteResult(env: DeleteEnv, n: int): Result {
      if exists k :: 0 <= k < n && Fails(env.unmounts, n, k) then Err(StillMounted)
      else if !env.dataGoes then Err(DataNotRemoved)
      else if !env.recordGoes then Err(RecordNotRemoved)
      else Ok
    }

    /** The unmounts stopped at the first that failed. */
    ghost predicate StuckAt(unmounts: nat -> UnmountEnv, files: Files, files': Files, id: Id) {
      var n := Count(files, id);
      exists k :: 0 <= k < n && Fails(unmounts, n, k) && (forall j :: 0 <= j < k ==> !Fails(unmounts, n, j))
               && Count(files', id) == n - k && id in files && id in files'
               && files'[id].mountPoint == files[id].mountPoint
    }

    ghost function Tables(): LayerTables
      reads `order, `listed, `owners, `compressed, `uncompressed
    {
      LayerTables(order, listed, owners, compressed, uncompressed)
    }

    method DeleteFound(layer: Layer, env: DeleteEnv) returns (r: Result)
      requires Valid() && Positive(rundir.files) && layer.id in byid && byid[layer.id] == layer
      modifies this, layer`mountPoint, layer`mountCount, rundir
      ensures Valid() && Positive(rundir.files)
      ensures r == DeleteResult(env, Count(old(rundir.files), layer.id))
      ensures rundir.files - {layer.id} == old(rundir.files) - {layer.id}
      ensures r == Err(StillMounted) ==>
        Tables() == old(Tables()) && StuckAt(env.unmounts, old(rundir.files), rundir.files, layer.id)
      ensures r != Err(StillMounted) ==>
        && Tables() == Gone(old(Tables()), layer.id)
        && layer.id !in rundir.files
        && rundir.puts == old(rundir.puts) + (if Count(old(rundir.files), layer.id) > 0 then 1 else 0)
    {
      ghost var result := DeleteResult(env, Count(rundir.files, layer.id));
      var unmounted := UnmountAll(layer, env.unmounts);
      if !unmounted {
        return Err(StillMounted);
      }
      r := if !env.dataGoes then Err(DataNotRemoved) else if !env.recordGoes then Err(RecordNotRemoved) else Ok;
      assert r == result;
      Forget(layer);
    }

    /** Unmounts until the mount file is gone, asking the driver once. */
    method UnmountAll(layer: Layer, unmounts: nat -> UnmountEnv) returns (unmounted: bool)
      requires Positive(rundir.files)
      modifies layer`mountPoint, layer`mountCount, rundir
      ensures Positive(rundir.files) && rundir.files - {layer.id} == old(rundir.files) - {layer.id}
      ensures unmounted ==> layer.id !in rundir.files
      ensures unmounted ==> rundir.puts == old(rundir.puts) + if Count(old(rundir.files), layer.id) > 0 then 1 else 0
      ensures var n := Count(old(rundir.files), layer.id);
        !unmounted <==> exists k :: 0 <= k < n && Fails(unmounts, n, k)
      ensures !unmounted ==> StuckAt(unmounts, old(rundir.files), rundir.files, layer.id)
    {
      rundir.LoadLayerMountPoint(layer);
      ghost var n := layer.mountCount;
      var k := 0;
      while layer.mountCount > 0
        invariant n == Count(old(rundir.files), layer.id) && 0 <= k
        invariant n >= 0 && layer.mountCount == Count(rundir.files, layer.id) == n - k
        invariant forall j :: 0 <= j < k ==> !Fails(unmounts, n, j)
        invariant layer.mountCount > 0 ==>
          && layer.id in rundir.files && layer.id in old(rundir.files)
          && rundir.files[layer.id].mountPoint == old(rundir.files)[layer.id].mountPoint
        invariant Positive(rundir.files) && rundir.files - {layer.id} == old(rundir.files) - {layer.id}
        invariant rundir.puts == old(rundir.puts) +
          if Count(old(rundir.files), layer.id) > 0 && layer.mountCount == 0 then 1 else 0
        decreases layer.mountCount
      {
        var r := rundir.Unmount(layer.id, false, unmounts(k));
        if r.UnmountFailed? {
          assert Fails(unmounts, n, k);
          return false;
        }
        rundir.LoadLayerMountPoint(layer);
        k := k + 1;
      }
      unmounted := true;
    }

    /** Takes the layer out of the list, the tables and the indexes. */
    method Forget(layer: Layer)
      requires Valid() && layer.id in byid && byid[layer.id] == layer
      modifies this`layers, this`order, this`byid, this`byname, this`owners, this`listed
      modifies this`bycompressedsum, this`byuncompressedsum
      modifies this`compressed, this`uncompressed
      ensures Valid()
      ensures Tables() == Gone(old(Tables()), layer.id)
    {
      ghost var listed0, owners0 := listed, owners;
      assert forall n :: n in owners && n !in layer.names ==> owners[n] != layer.id by {
        Names.DeletedUnpointed(owners, listed, layer.id);
      }
      ForgetUnpointed(layer);
      assert Names.Inverse(owners, listed) by {
        Names.DeletedInverse(owners0, listed0, layer.id);
      }
    }

    method ForgetUnpointed(layer: Layer)
      requires Shape() && layer.id in byid && byid[layer.id] == layer
      requires forall n :: n in owners && n !in layer.names ==> owners[n] != layer.id
      requires Agrees(bycompressedsum, compressed) && Agrees(byuncompressedsum, uncompressed)
      modifies this`layers, this`order, this`byid, this`byname, this`owners, this`listed
      modifies this`bycompressedsum, this`byuncompressedsum
      modifies this`compressed, this`uncompressed
      ensures Shape()
      ensures order == Without(old(order), layer.id)
      ensures listed == old(listed) - {layer.id} && owners == old(owners) - (set n | n in layer.names)
      ensures compressed == old(compressed) - {layer.id} && uncompressed == old(uncompressed) - {layer.id}
      ensures Agrees(bycompressedsum, compressed) && Agrees(byuncompressedsum, uncompressed)
    {
      ForgetDigests(layer);
      ghost var table := byid;
      DropFromTables(layer);
      DropMirror(layer.id, table);
    }

    ghost method DropMirror(id: Id, table: map<Id, Layer>)
      requires Mirrored(table) && byid == table - {id}
      modifies this`listed, this`compressed, this`uncompressed
      ensures Mirrored(byid)
      ensures listed == old(listed) - {id} && compressed == old(compressed) - {id}
      ensures uncompressed == old(uncompressed) - {id}
    {
      listed, compressed, uncompressed := listed - {id}, compressed - {id}, uncompressed - {id};
    }

    method DropFromTables(layer: Layer)
      requires ListAgrees(layers, order, byid) && NamesAgree(byname, owners, byid) && layer.id in byid
      requires forall n :: n in owners && n !in layer.names ==> owners[n] != layer.id
      modifies this`layers, this`order, this`byid, this`byname, this`owners
      ensures ListAgrees(layers, order, byid) && NamesAgree(byname, owners, byid)
      ensures byid == old(byid) - {layer.id}
      ensures order == Without(old(order), layer.id)
      ensures owners == old(owners) - (set n | n in layer.names)
    {
      ForgetNames(layer);
      DropFromList(layer);
      NamesAgreeCut(byname, owners, byid, layer.id);
      byid := byid - {layer.id};
    }

    method ForgetNames(layer: Layer)
      requires NamesAgree(byname, owners, byid)
      modifies this`byname, this`owners
      ensures NamesAgree(byname, owners, byid)
      ensures owners == old(owners) - (set n | n in layer.names)
    {
      for k := 0 to |layer.names|
        invariant NamesAgree(byname, owners, byid)
        invariant owners == old(owners) - (set n | n in layer.names[..k])
      {
        assert layer.names[..k + 1] == layer.names[..k] + [layer.names[k]];
        byname, owners := byname - {layer.names[k]}, owners - {layer.names[k]};
      }
      assert layer.names[..|layer.names|] == layer.names;
    }

    method ForgetDigests(layer: Layer)
      requires Mirrored(byid) && layer.id in byid && byid[layer.id] == layer
      requires Agrees(bycompressedsum, compressed) && Agrees(byuncompressedsum, uncompressed)
      modifies this`bycompressedsum, this`byuncompressedsum
      ensures Agrees(bycompressedsum, compressed - {layer.id}) && Agrees(byuncompressedsum, uncompressed - {layer.id})
    {
      RemovedAt(bycompressedsum, compressed, compressed[layer.id], layer.id);
      RemovedAt(byuncompressedsum, uncompressed, uncompressed[layer.id], layer.id);
      bycompressedsum := UpdateDigestMap(bycompressedsum, layer.compressedDigest, "", layer.id);
      byuncompressedsum := UpdateDigestMap(byuncompressedsum, layer.uncompressedDigest, "", layer.id);
    }

    method DropFromList(layer: Layer)
      requires ListAgrees(layers, order, byid) && layer.id in byid
      modifies this`layers, this`order
      ensures order == Without(old(order), layer.id)
      ensures ListAgrees(layers, order, byid - {layer.id})
    {
      ghost var at := PlaceOf(layers, order, byid, layer.id);
      var toDeleteIndex := 0;
      while layers[toDeleteIndex].id != layer.id
        invariant toDeleteIndex <= at
        decreases at - toDeleteIndex
      {
        toDeleteIndex := toDeleteIndex + 1;
      }
      ghost var layers0, order0 := layers, order;
      layers := layers[..toDeleteIndex] + layers[toDeleteIndex + 1..];
      order := order[..toDeleteIndex] + order[toDeleteIndex + 1..];
      ListAgreesCut(layers0, order0, byid, toDeleteIndex, layers, order);
    }
  }

  /** The list holds each layer of the table once, in the given order. */
  ghost predicate ListAgrees(layers: seq<Layer>, order: seq<Id>, byid: map<Id, Layer>) {
    && |layers| == |order| && NoRepeat(order)
    && (forall i :: 0 <= i < |order| ==> order[i] in byid && layers[i] == byid[order[i]] && layers[i].id == order[i])
    && forall id :: id in byid ==> id in order
  }

  ghost predicate NamesAgree(byname: map<Name, Layer>, owners: map<Name, Id>, byid: map<Id, Layer>) {
    && byname.Keys == owners.Keys
    && forall n :: n in byname ==> owners[n] in byid && byname[n] == byid[owners[n]]
  }

  lemma NamesAgreeCut(byname: map<Name, Layer>, owners: map<Name, Id>, byid: map<Id, Layer>, id: Id)
    requires NamesAgree(byname, owners, byid) && forall n :: n in owners ==> owners[n] != id
    ensures NamesAgree(byname, owners, byid - {id})
  {
  }

  lemma ListAgreesAppend(layers: seq<Layer>, order: seq<Id>, table: map<Id, Layer>, layer: Layer)
    requires ListAgrees(layers, order, table) && layer.id !in table
    ensures ListAgrees(layers + [layer], order + [layer.id], table[layer.id := layer])
  {
    assert layer.id !in order;
    forall id | id in table[layer.id := layer]
      ensures id in order + [layer.id]
    {
      assert (order + [layer.id])[|order|] == layer.id;
    }
  }

  lemma NamesAgreeMore(byname: map<Name, Layer>, owners: map<Name, Id>, byid: map<Id, Layer>, layer: Layer)
    requires NamesAgree(byname, owners, byid) && layer.id !in byid
    ensures NamesAgree(byname, owners, byid[layer.id := layer])
  {
  }

  ghost function PlaceOf(layers: seq<Layer>, order: seq<Id>, byid: map<Id, Layer>, id: Id): (at: nat)
    requires ListAgrees(layers, order, byid) && id in byid
    ensures at < |order| && order[at] == id && layers[at].id == id
  {
    var at :| 0 <= at < |order| && order[at] == id;
    at
  }

  /** `cut` is `list` without its element at `at`. */
  ghost predicate IsCut<T>(list: seq<T>, at: nat, cut: seq<T>) {
    && at < |list| == |cut| + 1
    && forall i {:trigger cut[i]} :: 0 <= i < |cut| ==> cut[i] == list[if i < at then i else i + 1]
  }

  lemma CutIsCut<T>(list: seq<T>, at: nat)
    requires at < |list|
    ensures IsCut(list, at, list[..at] + list[at + 1..])
  {
  }

  lemma CutAgrees(layers: seq<Layer>, order: seq<Id>, byid: map<Id, Layer>, at: nat, layers': seq<Layer>,
                  order': seq<Id>)
    requires ListAgrees(layers, order, byid) && IsCut(layers, at, layers') && IsCut(order, at, order')
    ensures ListAgrees(layers', order', byid - {order[at]})
  {
    forall id | id in byid - {order[at]}
      ensures id in order'
    {
      var i :| 0 <= i < |order| && order[i] == id;
      assert order'[if i < at then i else i - 1] == id;
    }
  }

  lemma ListAgreesCut(layers: seq<Layer>, order: seq<Id>, byid: map<Id, Layer>, at: nat, layers': seq<Layer>,
                      order': seq<Id>)
    requires ListAgrees(layers, order, byid) && at < |order|
    requires layers' == layers[..at] + layers[at + 1..] && order' == order[..at] + order[at + 1..]
    ensures order' == Without(order, order[at])
    ensures ListAgrees(layers', order', byid - {order[at]})
  {
    CutIsWithout(order, at);
    CutIsCut(layers, at);
    CutIsCut(order, at);
    CutAgrees(layers, order, byid, at, layers', order');
  }
}
