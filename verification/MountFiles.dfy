/** Mount reference counts kept in one file per layer of the run directory. What the driver and
    the kernel answer is part of each call's environment. */
module MountFiles {
  import opened LayerObjects

  type Id = string

  datatype MountFile = MountFile(mountPoint: string, mountCount: int)

  type Files = map<Id, MountFile>

  /** What the driver answers to Get: a mount point, "" for none without an error, or an error. */
  datatype GetAnswer = Got(mountPoint: string) | GetFailed

  datatype PutAnswer = PutOk | PutNotExist | PutFailed

  /** The answers one call of Mount meets. */
  datatype MountEnv = MountEnv(stillMounted: bool, shiftingRefused: bool, get: GetAnswer, canWrite: bool)

  datatype UnmountEnv = UnmountEnv(put: PutAnswer, canWrite: bool)

  datatype MountResult = Mounted(mountPoint: string) | MountFailed

  datatype UnmountResult = StillUsed | Released | UnmountFailed

  /** No file means no mounts. */
  function Count(files: Files, id: Id): int {
    if id in files then files[id].mountCount else 0
  }

  /** A mount file exists only while the count is positive. */
  ghost predicate Positive(files: Files) {
    forall id :: id in files ==> files[id].mountCount > 0
  }

  class RunDir {
    var files: Files
    ghost var puts: nat   // how often the driver was asked to let a layer go

    constructor ()
      ensures files == map[] && puts == 0
    {
      files := map[];
      puts := 0;
    }

    method LoadLayerMountPoint(layer: Layer)
      modifies layer`mountPoint, layer`mountCount
      ensures layer.mountCount == Count(files, layer.id)
      ensures layer.mountPoint == if layer.id in files then files[layer.id].mountPoint else ""
    {
      if layer.id !in files {
        layer.mountPoint, layer.mountCount := "", 0;
        return;
      }
      layer.mountPoint, layer.mountCount := files[layer.id].mountPoint, files[layer.id].mountCount;
    }

    method SaveMount(layer: Layer, canWrite: bool) returns (saved: bool)
      modifies this`files
      ensures saved == (canWrite || (layer.mountCount <= 0 && layer.id !in old(files)))
      ensures files == if !canWrite then old(files)
                       else if layer.mountCount <= 0 then old(files) - {layer.id}
                       else old(files)[layer.id := MountFile(layer.mountPoint, layer.mountCount)]
    {
      saved := canWrite || (layer.mountCount <= 0 && layer.id !in files);
      if canWrite {
        files := if layer.mountCount <= 0 then files - {layer.id}
                 else files[layer.id := MountFile(layer.mountPoint, layer.mountCount)];
      }
    }

    method Mount(id: Id, env: MountEnv) returns (r: MountResult)
      requires Positive(files)
      modifies this`files
      ensures Positive(files) && files - {id} == old(files) - {id}
      // One more, if the mount is there or the driver made one and the count can be written.
      ensures Count(files, id) == Count(old(files), id) + if MountCounts(old(files), id, env) then 1 else 0
      ensures MountCounts(old(files), id, env) ==> r.Mounted? && files[id].mountPoint == r.mountPoint
      // The mount point is the one recorded while the layer is still mounted, and else the driver's.
      ensures MountCounts(old(files), id, env) ==>
        if id in old(files) && env.stillMounted then r.mountPoint == old(files)[id].mountPoint
        else env.get.Got? && r.mountPoint == env.get.mountPoint != ""
      ensures r.Mounted? && !MountCounts(old(files), id, env) ==> r.mountPoint == "" && env.get == Got("")
      // It fails if the count cannot be written, or the driver has to be asked and cannot give one.
      ensures r.MountFailed? <==>
        if id in old(files) && env.stillMounted then !env.canWrite
        else env.shiftingRefused || env.get.GetFailed? || (env.get.mountPoint != "" && !env.canWrite)
    {
      var layer := new Layer(id, []);
      LoadLayerMountPoint(layer);
      if layer.mountCount > 0 && env.stillMounted {
        layer.mountCount := layer.mountCount + 1;
        var saved := SaveMount(layer, env.canWrite);
        return if saved then Mounted(layer.mountPoint) else MountFailed;
      }
      if env.shiftingRefused || env.get.GetFailed? {
        return MountFailed;
      }
      if env.get.mountPoint != "" {
        layer.mountPoint, layer.mountCount := env.get.mountPoint, layer.mountCount + 1;
        var saved := SaveMount(layer, env.canWrite);
        return if saved then Mounted(layer.mountPoint) else MountFailed;
      }
      r := Mounted("");
    }

    method Unmount(id: Id, force: bool, env: UnmountEnv) returns (r: UnmountResult)
      requires Positive(files)
      modifies this`files, this`puts
      ensures Positive(files) && files - {id} == old(files) - {id}
      // One less but never below none, or none at once if forced; nothing if it failed.
      ensures Count(files, id) ==
              if r.UnmountFailed? then Count(old(files), id) else Lowered(Count(old(files), id), force)
      ensures r.StillUsed? <==> !force && Count(old(files), id) > 1 && env.canWrite
      ensures r.Released? ==> id !in files
      ensures Count(files, id) > 0 && id in old(files) ==> files[id].mountPoint == old(files)[id].mountPoint
      // The driver is asked only for the last mount, or when forced.
      ensures puts == old(puts) + if force || Count(old(files), id) <= 1 then 1 else 0
      ensures r.UnmountFailed? <==> if !force && Count(old(files), id) > 1 then !env.canWrite
                                    else env.put.PutFailed? || (id in old(files) && !env.canWrite)
    {
      var layer := new Layer(id, []);
      LoadLayerMountPoint(layer);
      if force {
        layer.mountCount := 1;
      }
      if layer.mountCount > 1 {
        layer.mountCount := layer.mountCount - 1;
        var saved := SaveMount(layer, env.canWrite);
        return if saved then StillUsed else UnmountFailed;
      }
      puts := puts + 1;
      if env.put.PutFailed? {
        return UnmountFailed;
      }
      layer.mountCount := layer.mountCount - 1;
      layer.mountPoint := "";
      var saved := SaveMount(layer, env.canWrite);
      r := if saved then Released else UnmountFailed;
    }
  }

  /** The calls of Mount that are counted. */
  predicate MountCounts(files: Files, id: Id, env: MountEnv) {
    && env.canWrite
    && ((Count(files, id) > 0 && env.stillMounted)
        || (!env.shiftingRefused && env.get.Got? && env.get.mountPoint != ""))
  }

  function Lowered(count: int, force: bool): int {
    if force || count <= 1 then 0 else count - 1
  }

  // ---- Runs ----

  /** The counted calls on one layer. */
  datatype Call = Up | Down | Off

  function Step(count: nat, call: Call): nat {
    match call
    case Up => count + 1
    case Down => Lowered(count, false)
    case Off => Lowered(count, true)
  }

  function Run(count: nat, calls: seq<Call>): nat {
    if calls == [] then count else Step(Run(count, calls[..|calls| - 1]), calls[|calls| - 1])
  }

  /** The calls after the last forced unmount. */
  function Stretch(calls: seq<Call>): (r: seq<Call>)
    ensures Off !in r
    ensures Off !in calls ==> r == calls
  {
    if calls == [] then []
    else if calls[|calls| - 1] == Off then []
    else Stretch(calls[..|calls| - 1]) + [calls[|calls| - 1]]
  }

  /** A forced unmount makes the run start over from no mounts. */
  lemma {:induction false} RunFromStretch(count: nat, calls: seq<Call>)
    ensures Run(count, calls) == Run(if Off in calls then 0 else count, Stretch(calls))
  {
    if calls != [] {
      var init, last := calls[..|calls| - 1], calls[|calls| - 1];
      assert calls == init + [last];
      RunFromStretch(count, init);
      if last != Off {
        assert Stretch(calls)[..|Stretch(init)|] == Stretch(init);
      }
    }
  }

  /** Mounts minus unmounts. */
  function Balance(calls: seq<Call>): int
    requires Off !in calls
  {
    if calls == [] then 0 else Balance(calls[1..]) + if calls[0] == Up then 1 else -1
  }

  lemma {:induction false} BalanceAppend(calls: seq<Call>, call: Call)
    requires Off !in calls && call != Off
    ensures Off !in calls + [call] && Balance(calls + [call]) == Balance(calls) + Balance([call])
  {
    if calls == [] {
      assert calls + [call] == [call];
    } else {
      assert (calls + [call])[1..] == calls[1..] + [call];
      BalanceAppend(calls[1..], call);
    }
  }

  ghost predicate Reaches(count: nat, calls: seq<Call>, n: int)
    requires Off !in calls
  {
    n == count + Balance(calls) || exists k :: 0 <= k <= |calls| && n == Balance(calls[k..])
  }

  lemma {:induction false} SurplusWithoutOff(count: nat, calls: seq<Call>)
    requires Off !in calls
    ensures Reaches(count, calls, Run(count, calls))
    ensures Run(count, calls) >= count + Balance(calls)
    ensures forall k :: 0 <= k <= |calls| ==> Run(count, calls) >= Balance(calls[k..])
  {
    if calls != [] {
      var init, last := calls[..|calls| - 1], calls[|calls| - 1];
      assert calls == init + [last];
      SurplusWithoutOff(count, init);
      assert Balance([last]) == if last == Up then 1 else -1 by {
        assert [last][1..] == [];
      }
      BalanceAppend(init, last);
      forall k | 0 <= k <= |init|
        ensures Balance(calls[k..]) == Balance(init[k..]) + Balance([last])
      {
        assert calls[k..] == init[k..] + [last];
        BalanceAppend(init[k..], last);
      }
      assert calls[|calls|..] == [];
      if Run(count, calls) == 0 {
        assert 0 == Balance(calls[|calls|..]);
      } else if Run(count, init) != count + Balance(init) {
        var k :| 0 <= k <= |init| && Run(count, init) == Balance(init[k..]);
        assert Run(count, calls) == Balance(calls[k..]);
      }
    } else {
      assert calls[0..] == [];
    }
  }

  /** The count at the end of any run is the largest surplus of mounts over unmounts that any final
      part of the stretch after the last forced unmount has. The whole stretch counts from the count
      it began with: none after a forced unmount, else that of the run. */
  lemma RunIsLargestSurplus(count: nat, calls: seq<Call>)
    ensures var stretch, from := Stretch(calls), if Off in calls then 0 else count;
      && Reaches(from, stretch, Run(count, calls))
      && Run(count, calls) >= from + Balance(stretch)
      && forall k :: 0 <= k <= |stretch| ==> Run(count, calls) >= Balance(stretch[k..])
  {
    RunFromStretch(count, calls);
    SurplusWithoutOff(if Off in calls then 0 else count, Stretch(calls));
  }

  /** So the mount file is gone at the end exactly if no final part of that stretch has more mounts
      than unmounts; in particular after any mounts followed by at least as many unmounts. */
  lemma FileGoneIff(calls: seq<Call>)
    ensures var stretch := Stretch(calls);
      Run(0, calls) == 0 <==> forall k :: 0 <= k <= |stretch| ==> Balance(stretch[k..]) <= 0
  {
    var stretch := Stretch(calls);
    RunIsLargestSurplus(0, calls);
    assert stretch[0..] == stretch;
    assert stretch[|stretch|..] == [];
    if Run(0, calls) != 0 {
      if Run(0, calls) == Balance(stretch) {
        assert Balance(stretch[0..]) > 0;
      }
    }
  }
}
