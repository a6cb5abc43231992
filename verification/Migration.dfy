/** From one big layers file to one file per layer, with the power cut anywhere. */
module Migration {
  import opened Options
  import opened Slices

  type Id = string

  datatype Record = Record(id: Id, uncompressedDigest: string, rest: string)

  /** A layer's directory: its record file, if written, and whether its tar-split file is in it. */
  datatype Dir = Dir(json: Option<Record>, tarSplit: bool)

  /** What is on disk: the old single file, the directories, the tar-split files at their old
      place, and the layers whose driver data are in order. */
  datatype Disk = Disk(single: Option<seq<Record>>, dirs: map<Id, Dir>, oldTarSplits: set<Id>, driverData: set<Id>)

  const LAYER_NAME_LEN := 64

  // ---- What must come out ----

  /** The last record the single file has for the ID. */
  function Last(records: seq<Record>, id: Id): Option<Record> {
    if records == [] then None
    else if records[|records| - 1].id == id then Some(records[|records| - 1])
    else Last(records[..|records| - 1], id)
  }

  function InSingle(d: Disk, id: Id): Option<Record> {
    if d.single.Some? then Last(d.single.value, id) else None
  }

  /** A record of the single file overrides the record file of the same layer. */
  function RecordOf(d: Disk, id: Id): Option<Record> {
    if InSingle(d, id).Some? then InSingle(d, id)
    else if id in d.dirs then d.dirs[id].json
    else None
  }

  predicate HasTarSplit(d: Disk, id: Id) {
    (id in d.dirs && d.dirs[id].tarSplit) || (InSingle(d, id).Some? && id in d.oldTarSplits)
  }

  /** Image layers must have their tar-split file and their driver data. */
  predicate Sound(d: Disk, id: Id, r: Record) {
    r.uncompressedDigest != "" ==> HasTarSplit(d, id) && id in d.driverData
  }

  predicate ToLoad(d: Disk, id: Id) {
    |id| == LAYER_NAME_LEN && RecordOf(d, id).Some? && Sound(d, id, RecordOf(d, id).value)
  }

  function Names(d: Disk): set<Id> {
    d.dirs.Keys + if d.single.Some? then (set r | r in d.single.value :: r.id) else {}
  }

  /** The layers that loading this disk must give. */
  function Expected(d: Disk): map<Id, Record> {
    map id | id in Names(d) && ToLoad(d, id) :: RecordOf(d, id).value
  }

  /** Two disks on which the same layers are to be loaded, with their driver data. */
  ghost predicate SameOutcome(d: Disk, d': Disk) {
    forall id ::
      && (ToLoad(d, id) <==> ToLoad(d', id))
      && (ToLoad(d, id) ==> RecordOf(d, id) == RecordOf(d', id) && (id in d.driverData <==> id in d'.driverData))
  }

  lemma {:induction false} LastFound(records: seq<Record>, id: Id)
    ensures Last(records, id).Some? <==> exists r :: r in records && r.id == id
    ensures Last(records, id).Some? ==> Last(records, id).value in records && Last(records, id).value.id == id
  {
    if records != [] {
      var init, last := records[..|records| - 1], records[|records| - 1];
      assert records == init + [last];
      LastFound(init, id);
    }
  }

  lemma LoadNamed(d: Disk, id: Id)
    requires ToLoad(d, id)
    ensures id in Names(d)
  {
    if d.single.Some? {
      LastFound(d.single.value, id);
    }
  }

  lemma SameExpected(d: Disk, d': Disk)
    requires SameOutcome(d, d')
    ensures Expected(d) == Expected(d')
  {
    forall id
      ensures id in Expected(d) <==> id in Expected(d')
    {
      if ToLoad(d, id) {
        LoadNamed(d, id);
        LoadNamed(d', id);
      }
    }
  }

  // ---- What must come out, in terms of the files alone ----

  /** The record that counts for the layer: the last one of the single file, or if that has none the
      one in its directory. */
  ghost predicate RecordIs(d: Disk, id: Id, r: Record) {
    if InFile(d, id) then
      exists k :: 0 <= k < |d.single.value| && d.single.value[k] == r && r.id == id
               && forall j :: k < j < |d.single.value| ==> d.single.value[j].id != id
    else id in d.dirs && d.dirs[id].json == Some(r)
  }

  ghost predicate InFile(d: Disk, id: Id) {
    d.single.Some? && exists k :: 0 <= k < |d.single.value| && d.single.value[k].id == id
  }

  /** A layer with a digest has its tar-split file, in its directory or where the single file keeps it,
      and its driver data. */
  ghost predicate Whole(d: Disk, id: Id) {
    && ((id in d.dirs && d.dirs[id].tarSplit) || (InFile(d, id) && id in d.oldTarSplits))
    && id in d.driverData
  }

  /** Loaded are all layers with a record and a proper name that have no digest or are whole. */
  ghost predicate Loads(d: Disk, layers: map<Id, Record>) {
    && (forall id :: id in layers ==> |id| == 64 && RecordIs(d, id, layers[id]))
    && forall id, r :: |id| == 64 && RecordIs(d, id, r) ==>
         (id in layers <==> (r.uncompressedDigest == "" || Whole(d, id)))
  }

  /** The layers loaded have their record and tar-split file in their directory, and their driver data. */
  ghost predicate InPlace(d: Disk, layers: map<Id, Record>, d': Disk) {
    forall id :: id in layers ==>
      && id in d'.dirs && d'.dirs[id].json == Some(layers[id])
      && (layers[id].uncompressedDigest != "" ==> d'.dirs[id].tarSplit)
      && (id in d'.driverData <==> id in d.driverData)
  }

  /** Of those with a record and a proper name that were not loaded nothing is left. */
  ghost predicate NoneLeft(d: Disk, layers: map<Id, Record>, d': Disk) {
    forall id, r :: |id| == 64 && RecordIs(d, id, r) && id !in layers ==>
      id !in d'.dirs && id !in d'.driverData
  }

  /** What has no record, or no proper name, stays as it was. */
  ghost predicate StraysStay(d: Disk, d': Disk) {
    forall id :: id in d.dirs && !InFile(d, id) && (d.dirs[id].json.None? || |id| != LAYER_NAME_LEN) ==>
      id in d'.dirs && d'.dirs[id] == d.dirs[id] && (id in d'.driverData <==> id in d.driverData)
  }

  lemma {:induction false} LastIs(records: seq<Record>, id: Id, k: nat)
    requires k < |records| && records[k].id == id && forall j :: k < j < |records| ==> records[j].id != id
    ensures Last(records, id) == Some(records[k])
  {
    if k < |records| - 1 {
      LastIs(records[..|records| - 1], id, k);
    }
  }

  lemma {:induction false} LastAt(records: seq<Record>, id: Id) returns (k: nat)
    requires Last(records, id).Some?
    ensures k < |records| && records[k] == Last(records, id).value && records[k].id == id
    ensures forall j :: k < j < |records| ==> records[j].id != id
  {
    if records[|records| - 1].id == id {
      k := |records| - 1;
    } else {
      k := LastAt(records[..|records| - 1], id);
    }
  }

  lemma InFileIff(d: Disk, id: Id)
    ensures InSingle(d, id).Some? <==> InFile(d, id)
  {
    if d.single.Some? {
      LastFound(d.single.value, id);
      if InSingle(d, id).Some? {
        var k := LastAt(d.single.value, id);
      }
    }
  }

  lemma RecordIsIff(d: Disk, id: Id, r: Record)
    ensures RecordOf(d, id) == Some(r) <==> RecordIs(d, id, r)
  {
    InFileIff(d, id);
    if RecordIs(d, id, r) && InFile(d, id) {
      var k :| 0 <= k < |d.single.value| && d.single.value[k] == r && r.id == id
            && forall j :: k < j < |d.single.value| ==> d.single.value[j].id != id;
      LastIs(d.single.value, id, k);
    }
    if InSingle(d, id).Some? {
      var k := LastAt(d.single.value, id);
    }
  }

  /** So the layers expected are those. */
  lemma ExpectedLoads(d: Disk)
    ensures Loads(d, Expected(d))
  {
    forall id, r | RecordIs(d, id, r)
      ensures RecordOf(d, id) == Some(r) && (HasTarSplit(d, id) && id in d.driverData <==> Whole(d, id))
    {
      RecordIsIff(d, id, r);
      InFileIff(d, id);
    }
    forall id | RecordOf(d, id).Some?
      ensures RecordIs(d, id, RecordOf(d, id).value)
    {
      RecordIsIff(d, id, RecordOf(d, id).value);
    }
    forall id | ToLoad(d, id)
      ensures id in Names(d)
    {
      LoadNamed(d, id);
    }
  }

  // ---- How much it takes ----

  function Records(d: Disk): nat {
    if d.single.Some? then |d.single.value| else 0
  }

  /** The actions that are enough for a start to come through: three for each record of the single
      file, four for each layer there may be a directory of, and one for the single file. */
  function Enough(d: Disk): nat {
    3 * Records(d) + 4 * |Names(d)| + 1
  }

  /** No record of the single file came up, and no layer that was not there. */
  ghost predicate NoMore(d: Disk, d': Disk) {
    (d'.single == d.single || d'.single == None) && Names(d') <= Names(d)
  }

  lemma NoMoreNeeded(d: Disk, d': Disk)
    requires NoMore(d, d')
    ensures Enough(d') <= Enough(d)
  {
    SubsetSize(Names(d'), Names(d));
  }

  // ---- The single actions ----

  function Made(d: Disk, id: Id): Disk {
    if id in d.dirs then d else d.(dirs := d.dirs[id := Dir(None, false)])
  }

  function Renamed(d: Disk, id: Id): Disk
    requires id in d.dirs
  {
    d.(dirs := d.dirs[id := d.dirs[id].(tarSplit := true)], oldTarSplits := d.oldTarSplits - {id})
  }

  function Written(d: Disk, r: Record): Disk
    requires r.id in d.dirs
  {
    d.(dirs := d.dirs[r.id := d.dirs[r.id].(json := Some(r))])
  }

  lemma MadeKeeps(d: Disk, id: Id)
    ensures SameOutcome(d, Made(d, id))
  {
  }

  lemma RenamedKeeps(d: Disk, id: Id)
    requires id in d.dirs && InSingle(d, id).Some? && id in d.oldTarSplits
    ensures SameOutcome(d, Renamed(d, id))
  {
  }

  lemma WrittenKeeps(d: Disk, r: Record)
    requires r.id in d.dirs && InSingle(d, r.id).Some?
    ensures SameOutcome(d, Written(d, r))
  {
  }

  /** `d'` differs from `d` only in having less of layer `id`. */
  ghost predicate LessOf(d: Disk, d': Disk, id: Id) {
    && d'.single == d.single && d'.oldTarSplits == d.oldTarSplits
    && d'.dirs - {id} == d.dirs - {id} && d'.driverData <= d.driverData && d.driverData - {id} <= d'.driverData
    && (id in d'.dirs ==> id in d.dirs)
    && (id in d'.dirs && d'.dirs[id].json.Some? ==> d'.dirs[id].json == d.dirs[id].json)
    && (id in d'.dirs && d'.dirs[id].tarSplit ==> d.dirs[id].tarSplit)
  }

  lemma LessIsNoMore(d: Disk, d': Disk, id: Id)
    requires LessOf(d, d', id)
    ensures NoMore(d, d')
  {
    forall other | other in d'.dirs
      ensures other in d.dirs
    {
      if other != id {
        assert other in d'.dirs - {id};
      }
    }
  }

  /** Taking away from a layer that is not to be loaded changes nothing. */
  lemma LessKeeps(d: Disk, d': Disk, id: Id)
    requires LessOf(d, d', id) && !ToLoad(d, id)
    ensures SameOutcome(d, d') && !ToLoad(d', id)
  {
    forall other | other != id
      ensures other in d.dirs <==> other in d'.dirs
      ensures other in d.dirs ==> d.dirs[other] == d'.dirs[other]
    {
      assert other in d.dirs <==> other in d.dirs - {id};
      assert other in d'.dirs <==> other in d'.dirs - {id};
      assert other in d.dirs ==> d.dirs[other] == (d.dirs - {id})[other] == (d'.dirs - {id})[other];
    }
  }

  /** A layer of the single file has its own record file and its tar-split file in place, or is
      not to be loaded and has no directory. */
  ghost predicate Settled(d: Disk, id: Id) {
    InSingle(d, id).Some? ==>
      && id !in d.oldTarSplits
      && if id in d.dirs then d.dirs[id].json == InSingle(d, id) else !ToLoad(d, id)
  }

  ghost predicate AllSettled(d: Disk) {
    forall id :: Settled(d, id)
  }

  lemma SingleRemovable(d: Disk)
    requires AllSettled(d)
    ensures SameOutcome(d, d.(single := None))
  {
    forall id
      ensures ToLoad(d, id) <==> ToLoad(d.(single := None), id)
      ensures ToLoad(d, id) ==> RecordOf(d, id) == RecordOf(d.(single := None), id)
    {
      assert Settled(d, id);
    }
  }

  lemma LessSettled(d: Disk, d': Disk, id: Id)
    requires AllSettled(d) && LessOf(d, d', id) && !ToLoad(d, id) && id !in d'.dirs
    ensures AllSettled(d')
  {
    LessKeeps(d, d', id);
    forall other
      ensures Settled(d', other)
    {
      assert Settled(d, other);
      if other != id {
        assert other in d.dirs <==> other in d.dirs - {id};
        assert other in d'.dirs <==> other in d'.dirs - {id};
        assert other in d.dirs ==> d.dirs[other] == (d.dirs - {id})[other] == (d'.dirs - {id})[other];
      }
    }
  }

  /** The power is cut when only the record of a broken layer was removed: every start from then on
      (see GetLayersFromJson) leaves the directory and the driver data. */
  lemma CutRemovalStays(d: Disk, id: Id, d': Disk)
    requires d.single == None && id in d.dirs && !ToLoad(d, id) && id in d.driverData
    requires StraysStay(d.(dirs := d.dirs[id := d.dirs[id].(json := None)]), d')
    ensures LessOf(d, d.(dirs := d.dirs[id := d.dirs[id].(json := None)]), id)
    ensures id in d'.dirs && d'.dirs[id].json == None && id in d'.driverData
  {
  }

  // ---- The machine ----

  /** A machine that can still take `power` actions on its disk before the power is cut. Each
      action happens as a whole or not at all. */
  class Machine {
    var disk: Disk
    var power: nat

    constructor (disk: Disk)
      ensures this.disk == disk && power == 0
    {
      this.disk, power := disk, 0;
    }

    method Act(next: Disk) returns (alive: bool)
      modifies this
      ensures alive == (old(power) > 0)
      ensures disk == if alive then next else old(disk)
      ensures power == if alive then old(power) - 1 else 0
    {
      alive := power > 0;
      if alive {
        disk, power := next, power - 1;
      }
    }

    /** Makes the layer's directory, moves its tar-split file there, and writes its record. */
    method MigrateRecord(r: Record) returns (alive: bool)
      requires InSingle(disk, r.id).Some?
      modifies this
      ensures SameOutcome(old(disk), disk) && disk.single == old(disk).single
      ensures disk.dirs - {r.id} == old(disk).dirs - {r.id} && disk.oldTarSplits <= old(disk).oldTarSplits
      ensures disk.driverData == old(disk).driverData
      ensures alive ==> r.id !in disk.oldTarSplits && r.id in disk.dirs && disk.dirs[r.id].json == Some(r)
      ensures !alive ==> power == 0
      ensures NoMore(old(disk), disk) && if alive then old(power) <= power + 3 else old(power) < 3
    {
      LastFound(disk.single.value, r.id);
      MadeKeeps(disk, r.id);
      alive := Act(Made(disk, r.id));
      if !alive {
        return;
      }
      if r.id in disk.oldTarSplits {
        RenamedKeeps(disk, r.id);
        alive := Act(Renamed(disk, r.id));
        if !alive {
          return;
        }
      }
      WrittenKeeps(disk, r);
      alive := Act(Written(disk, r));
    }

    method Migrate() returns (alive: bool)
      modifies this
      ensures SameOutcome(old(disk), disk) && disk.single == old(disk).single
      ensures alive ==> AllSettled(disk) && Moved(old(disk), disk)
      ensures disk.driverData == old(disk).driverData
      ensures !alive ==> power == 0
      ensures NoMore(old(disk), disk)
      ensures if alive then old(power) <= power + 3 * Records(disk) else old(power) < 3 * Records(disk)
    {
      if disk.single.None? {
        return true;
      }
      var records := disk.single.value;
      for k := 0 to |records|
        invariant SameOutcome(old(disk), disk) && disk.single == old(disk).single == Some(records)
        invariant MigratedUpTo(disk, records[..k]) && OthersKept(old(disk), disk, records[..k])
        invariant disk.driverData == old(disk).driverData
        invariant NoMore(old(disk), disk) && old(power) <= power + 3 * k
      {
        LastFound(records, records[k].id);
        ghost var before := disk;
        alive := MigrateRecord(records[k]);
        if !alive {
          return;
        }
        MigratedStep(before, disk, records[..k], records[k]);
        OthersStep(old(disk), before, disk, records[..k], records[k]);
        assert records[..k + 1] == records[..k] + [records[k]];
      }
      assert records[..|records|] == records;
      alive := true;
    }

    /** Reads one directory; a layer whose data are broken is removed. */
    method LoadDir(id: Id) returns (alive: bool, record: Option<Record>)
      requires AllSettled(disk) && id in disk.dirs
      modifies this
      ensures SameOutcome(old(disk), disk) && disk.single == old(disk).single
      ensures disk.dirs - {id} == old(disk).dirs - {id}
      ensures alive ==> AllSettled(disk) && record == if ToLoad(old(disk), id) then RecordOf(old(disk), id) else None
      ensures disk.driverData <= old(disk).driverData && old(disk).driverData - {id} <= disk.driverData
      ensures alive ==> AfterTurn(old(disk), disk, id)
      ensures !alive ==> power == 0
      ensures NoMore(old(disk), disk) && if alive then old(power) <= power + 4 else old(power) < 4
    {
      assert Settled(disk, id);
      var dir := disk.dirs[id];
      if |id| != LAYER_NAME_LEN || dir.json.None? {
        return true, None;
      }
      var r := dir.json.value;
      if r.uncompressedDigest != "" && (!dir.tarSplit || id !in disk.driverData) {
        alive := RemoveLayer(id);
        LessIsNoMore(old(disk), disk, id);
        return alive, None;
      }
      return true, Some(r);
    }

    /** Removes the directory, whose files go in either order, and then the driver's data. */
    method RemoveLayer(id: Id) returns (alive: bool)
      requires AllSettled(disk) && id in disk.dirs && !ToLoad(disk, id)
      modifies this
      ensures SameOutcome(old(disk), disk) && LessOf(old(disk), disk, id)
      ensures alive ==> AllSettled(disk) && id !in disk.dirs && id !in disk.driverData
      ensures !alive ==> power == 0
      ensures if alive then old(power) <= power + 4 else old(power) < 4
    {
      ghost var before := disk;
      var jsonFirst: bool := *;
      var dir := disk.dirs[id];
      var half := if jsonFirst then dir.(json := None) else dir.(tarSplit := false);
      alive := Lessen(before, id, disk.(dirs := disk.dirs[id := half]));
      if !alive {
        return;
      }
      alive := Lessen(before, id, disk.(dirs := disk.dirs[id := Dir(None, false)]));
      if !alive {
        return;
      }
      alive := Lessen(before, id, disk.(dirs := disk.dirs - {id}));
      if !alive {
        return;
      }
      alive := Lessen(before, id, disk.(driverData := disk.driverData - {id}));
      if alive {
        LessSettled(before, disk, id);
      }
    }

    /** One action that takes away from a layer that is not to be loaded. */
    method Lessen(ghost before: Disk, id: Id, next: Disk) returns (alive: bool)
      requires !ToLoad(before, id) && LessOf(before, disk, id) && LessOf(before, next, id)
      modifies this
      ensures disk == if alive then next else old(disk)
      ensures SameOutcome(before, disk) && LessOf(before, disk, id)
      ensures if alive then old(power) == power + 1 else old(power) == power == 0
    {
      LessKeeps(before, disk, id);
      LessKeeps(before, next, id);
      alive := Act(next);
    }

    /** Loads the layers: migrates, walks the directories in any order, and removes the single
        file last. None means the power was cut. */
    method GetLayersFromJson() returns (layers: Option<map<Id, Record>>)
      modifies this
      // Wherever the power was cut, the same layers are to be loaded as before.
      ensures SameOutcome(old(disk), disk)
      ensures layers.Some? ==> layers.value == Expected(old(disk)) && disk.single == None
      ensures layers.None? ==> power == 0
      // In terms of the files alone.
      ensures layers.Some? ==>
        && Loads(old(disk), layers.value) && InPlace(old(disk), layers.value, disk)
        && NoneLeft(old(disk), layers.value, disk) && StraysStay(old(disk), disk)
      // With enough power the start comes through, and what is enough does not grow.
      ensures layers.None? ==> old(power) < Enough(old(disk))
      ensures NoMore(old(disk), disk)
      // The single file goes only when each of its layers has its own file.
      ensures disk.single.None? ==>
        forall id :: ToLoad(old(disk), id) ==> id in disk.dirs && disk.dirs[id].json == RecordOf(old(disk), id)
    {
      var alive := Migrate();
      if !alive {
        return None;
      }
      ghost var moved := disk;
      assert |disk.dirs| <= |Names(old(disk))| by {
        SubsetSize(disk.dirs.Keys, Names(old(disk)));
      }
      var loaded;
      alive, loaded := Walk();
      if !alive {
        return None;
      }
      SameExpected(old(disk), disk);
      if disk.single.Some? {
        SingleRemovable(disk);
        alive := Act(disk.(single := None));
        if !alive {
          return None;
        }
      }
      layers := Some(loaded);
      ExpectedLoads(old(disk));
      CameThrough(old(disk), moved, disk, loaded);
    }

    method Walk() returns (alive: bool, loaded: map<Id, Record>)
      requires AllSettled(disk)
      modifies this
      ensures SameOutcome(old(disk), disk) && disk.single == old(disk).single
      ensures alive ==> AllSettled(disk) && loaded == Expected(disk)
      ensures alive ==> forall id :: id in old(disk).dirs ==> AfterTurn(old(disk), disk, id)
      ensures !alive ==> power == 0
      ensures NoMore(old(disk), disk)
      ensures if alive then old(power) <= power + 4 * |old(disk).dirs| else old(power) < 4 * |old(disk).dirs|
    {
      loaded := map[];
      var todo := disk.dirs.Keys;
      while todo != {}
        invariant Walking(old(disk), disk, todo, loaded)
        invariant Turned(old(disk), disk, todo)
        invariant old(power) <= power + 4 * (|old(disk).dirs.Keys| - |todo|)
      {
        var id :| id in todo;
        ghost var before := disk;
        var record;
        alive, record := LoadDir(id);
        if !alive {
          WalkingOn(old(disk), before, disk);
          return;
        }
        WalkNext(old(disk), before, disk, todo, loaded, id, record);
        TurnNext(old(disk), before, disk, todo, id);
        todo := todo - {id};
        if record.Some? {
          loaded := loaded[id := record.value];
        }
      }
      alive := true;
      WalkDone(old(disk), disk, loaded);
    }

    /** Power cuts and restarts: whatever happened before, the first start that comes through
        loads what was to be loaded in the beginning. */
    method Restarts(powers: seq<nat>) returns (layers: Option<map<Id, Record>>)
      modifies this
      ensures SameOutcome(old(disk), disk)
      ensures layers.Some? ==>
        layers.value == Expected(old(disk)) && Loads(old(disk), layers.value) && InPlace(old(disk), layers.value, disk)
      // The last start comes through if its power is enough for the disk there was in the beginning.
      ensures powers != [] && powers[|powers| - 1] >= Enough(old(disk)) ==> layers.Some?
    {
      layers := None;
      for k := 0 to |powers|
        invariant SameOutcome(old(disk), disk)
        invariant layers.Some? ==> layers.value == Expected(old(disk)) && InPlace(old(disk), layers.value, disk)
        invariant NoMore(old(disk), disk)
        invariant k > 0 && powers[k - 1] >= Enough(old(disk)) ==> layers.Some?
      {
        SameExpected(old(disk), disk);
        NoMoreNeeded(old(disk), disk);
        power := powers[k];
        ghost var before := disk;
        layers := GetLayersFromJson();
        if layers.Some? {
          StillInPlace(old(disk), before, disk, layers.value);
        }
      }
      ExpectedLoads(old(disk));
    }
  }

  /** In the middle of the walk from `d0`, with the directories of `todo` still to read. */
  ghost predicate Walking(d0: Disk, d: Disk, todo: set<Id>, loaded: map<Id, Record>) {
    && todo <= d.dirs.Keys && todo <= d0.dirs.Keys
    && SameOutcome(d0, d) && d.single == d0.single && AllSettled(d) && NoMore(d0, d)
    && (forall id :: id in loaded <==> id in d0.dirs && id !in todo && ToLoad(d0, id))
    && forall id :: id in loaded ==> RecordOf(d0, id) == Some(loaded[id])
  }

  lemma CameThrough(d: Disk, moved: Disk, d': Disk, layers: map<Id, Record>)
    requires SameOutcome(d, moved) && SameOutcome(d, d') && Moved(d, moved) && moved.driverData == d.driverData
    requires d'.single == None && layers == Expected(d)
    requires forall id :: id in moved.dirs ==> AfterTurn(moved, d', id)
    ensures InPlace(d, layers, d') && NoneLeft(d, layers, d') && StraysStay(d, d')
  {
    forall id, r | |id| == LAYER_NAME_LEN && RecordIs(d, id, r) && id !in layers
      ensures id !in d'.dirs && id !in d'.driverData
    {
      RecordIsIff(d, id, r);
      if ToLoad(d, id) {
        LoadNamed(d, id);
      }
    }
    forall id
      ensures InSingle(d, id).Some? <==> InFile(d, id)
    {
      InFileIff(d, id);
    }
  }

  lemma StillInPlace(d: Disk, before: Disk, d': Disk, layers: map<Id, Record>)
    requires SameOutcome(d, before) && InPlace(before, layers, d') && layers == Expected(d)
    ensures InPlace(d, layers, d')
  {
  }

  /** A broken layer is gone; any other directory is as it was, with its driver data. */
  ghost predicate AfterTurn(d: Disk, d': Disk, id: Id)
    requires id in d.dirs
  {
    if |id| == LAYER_NAME_LEN && d.dirs[id].json.Some? && !ToLoad(d, id) then id !in d'.dirs && id !in d'.driverData
    else id in d'.dirs && d'.dirs[id] == d.dirs[id] && (id in d'.driverData <==> id in d.driverData)
  }

  /** In the middle of the walk: those still to be read are as they were. */
  ghost predicate Turned(d0: Disk, d: Disk, todo: set<Id>) {
    forall id :: id in d0.dirs ==>
      if id in todo then id in d.dirs && d.dirs[id] == d0.dirs[id] && (id in d.driverData <==> id in d0.driverData)
      else AfterTurn(d0, d, id)
  }

  lemma TurnNext(d0: Disk, d: Disk, d': Disk, todo: set<Id>, id: Id)
    requires Turned(d0, d, todo) && id in todo && id in d.dirs && id in d0.dirs && SameOutcome(d0, d)
    requires d'.dirs - {id} == d.dirs - {id} && d'.driverData <= d.driverData && d.driverData - {id} <= d'.driverData
    requires AfterTurn(d, d', id)
    ensures Turned(d0, d', todo - {id})
  {
    forall other | other != id
      ensures other in d'.dirs <==> other in d.dirs
      ensures other in d.dirs ==> d'.dirs[other] == d.dirs[other]
    {
      assert other in d'.dirs <==> other in d'.dirs - {id};
      assert other in d.dirs <==> other in d.dirs - {id};
      assert other in d.dirs ==> d.dirs[other] == (d.dirs - {id})[other] == (d'.dirs - {id})[other];
    }
  }

  lemma WalkingOn(d0: Disk, d: Disk, d': Disk)
    requires SameOutcome(d0, d) && SameOutcome(d, d') && NoMore(d0, d) && NoMore(d, d')
    ensures SameOutcome(d0, d') && NoMore(d0, d')
  {
  }

  lemma WalkDone(d0: Disk, d: Disk, loaded: map<Id, Record>)
    requires AllSettled(d0) && Walking(d0, d, {}, loaded)
    ensures loaded == Expected(d)
  {
    AllInDirs(d0);
    SameExpected(d0, d);
    assert loaded == Expected(d0);
  }

  lemma WalkNext(d0: Disk, d: Disk, d': Disk, todo: set<Id>, loaded: map<Id, Record>, id: Id, record: Option<Record>)
    requires Walking(d0, d, todo, loaded) && id in todo
    requires SameOutcome(d, d') && d'.single == d.single && AllSettled(d') && NoMore(d, d')
    requires d'.dirs - {id} == d.dirs - {id} && record == if ToLoad(d, id) then RecordOf(d, id) else None
    ensures Walking(d0, d', todo - {id}, if record.Some? then loaded[id := record.value] else loaded)
  {
    WalkingOn(d0, d, d');
    forall other | other in todo - {id}
      ensures other in d'.dirs
    {
      assert other in d.dirs - {id};
    }
  }

  /** Layers that none of these records is for have just the directory they had. */
  ghost predicate OthersKept(d: Disk, d': Disk, records: seq<Record>) {
    forall id :: Last(records, id).None? ==>
      (id in d'.dirs <==> id in d.dirs) && (id in d.dirs ==> d'.dirs[id] == d.dirs[id])
  }

  lemma OthersStep(d0: Disk, d: Disk, d': Disk, records: seq<Record>, r: Record)
    requires OthersKept(d0, d, records) && d'.dirs - {r.id} == d.dirs - {r.id}
    ensures OthersKept(d0, d', records + [r])
  {
    assert (records + [r])[..|records|] == records;
    forall id | id != r.id
      ensures id in d'.dirs <==> id in d.dirs
      ensures id in d.dirs ==> d'.dirs[id] == d.dirs[id]
    {
      assert id in d'.dirs <==> id in d'.dirs - {r.id};
      assert id in d.dirs <==> id in d.dirs - {r.id};
      assert id in d.dirs ==> d.dirs[id] == (d.dirs - {r.id})[id] == (d'.dirs - {r.id})[id];
    }
  }

  /** Every layer has its record in its own directory; what is not in the single file is untouched. */
  ghost predicate Moved(d: Disk, d': Disk) {
    forall id ::
      && (InSingle(d, id).Some? ==> id in d'.dirs && d'.dirs[id].json == InSingle(d, id))
      && (InSingle(d, id).None? ==> (id in d'.dirs <==> id in d.dirs) && (id in d.dirs ==> d'.dirs[id] == d.dirs[id]))
  }

  /** Each of these records' layers has its last record in its own file. */
  ghost predicate MigratedUpTo(d: Disk, records: seq<Record>) {
    forall id :: Last(records, id).Some? ==>
      id !in d.oldTarSplits && id in d.dirs && d.dirs[id].json == Last(records, id)
  }

  lemma MigratedStep(d: Disk, d': Disk, records: seq<Record>, r: Record)
    requires MigratedUpTo(d, records)
    requires d'.dirs - {r.id} == d.dirs - {r.id} && d'.oldTarSplits <= d.oldTarSplits
    requires r.id !in d'.oldTarSplits && r.id in d'.dirs && d'.dirs[r.id].json == Some(r)
    ensures MigratedUpTo(d', records + [r])
  {
    assert (records + [r])[..|records|] == records;
    forall id | id != r.id && Last(records, id).Some?
      ensures id in d'.dirs && d'.dirs[id] == d.dirs[id]
    {
      assert id in d.dirs - {r.id} && (d.dirs - {r.id})[id] == (d'.dirs - {r.id})[id];
    }
  }

  lemma AllInDirs(d: Disk)
    requires AllSettled(d)
    ensures forall id :: ToLoad(d, id) ==> id in d.dirs
    ensures forall id :: id in Expected(d) <==> id in d.dirs && ToLoad(d, id)
  {
    forall id | ToLoad(d, id)
      ensures id in d.dirs && id in Names(d)
    {
      assert Settled(d, id);
      LoadNamed(d, id);
    }
  }
}
