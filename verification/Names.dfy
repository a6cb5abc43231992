/** Image names: which image lists which names, and the index from a name to its image. */
module Names {
  import opened Options
  import opened Slices

  type Id = string

  type Name = string

  /** What the records say: the names each image lists. */
  type Table = map<Id, seq<Name>>

  /** No image lists a name twice and no two images list the same name. */
  ghost predicate Exclusive(t: Table) {
    NoRepeats(t) && forall i, j, n :: Lists(t, i, n) && Lists(t, j, n) ==> i == j
  }

  /** The index maps a name to an image exactly when the image lists the name. */
  ghost predicate Inverse(byname: map<Name, Id>, t: Table) {
    NoRepeats(t) && Pointing(byname, t) && Covering(byname, t)
  }

  ghost predicate NoRepeats(t: Table) {
    forall i :: i in t ==> NoRepeat(t[i])
  }

  ghost predicate Pointing(byname: map<Name, Id>, t: Table) {
    forall n :: n in byname ==> Lists(t, byname[n], n)
  }

  ghost predicate Covering(byname: map<Name, Id>, t: Table) {
    forall i, n :: Lists(t, i, n) ==> n in byname && byname[n] == i
  }

  predicate Lists(t: Table, i: Id, n: Name) {
    i in t && n in t[i]
  }

  /** The ID that a key stands for: itself, or else the one that lists it as a name. */
  ghost function LookupIn(t: Table, key: string): Option<Id> {
    if key in t then Some(key)
    else if exists i :: Lists(t, i, key) then
      var i :| Lists(t, i, key);
      Some(i)
    else None
  }

  /** The key stands for this ID. */
  ghost predicate StandsFor(t: Table, key: string, i: Id) {
    i in t && (i == key || (key !in t && key in t[i]))
  }

  lemma LookupMeans(t: Table, key: string)
    requires Exclusive(t)
    ensures forall i :: LookupIn(t, key) == Some(i) <==> StandsFor(t, key, i)
  {
    forall i | StandsFor(t, key, i)
      ensures LookupIn(t, key) == Some(i)
    {
      assert key !in t ==> Lists(t, i, key);
    }
  }

  lemma InverseExclusive(byname: map<Name, Id>, t: Table)
    requires Inverse(byname, t)
    ensures Exclusive(t)
  {
  }

  predicate Disjoint(a: seq<Name>, b: seq<Name>) {
    forall n :: n in a ==> n !in b
  }

  /** There is at most one such index. */
  lemma InverseUnique(a: map<Name, Id>, b: map<Name, Id>, t: Table)
    requires Inverse(a, t) && Inverse(b, t)
    ensures a == b
  {
    forall n
      ensures n in a <==> n in b
      ensures n in a ==> a[n] == b[n]
    {
      if n in a {
        assert Lists(t, a[n], n);
      }
      if n in b {
        assert Lists(t, b[n], n);
      }
    }
  }

  /** The first occurrences of the names, in order. */
  function Dedupe(names: seq<Name>): (r: seq<Name>)
    ensures NoRepeat(r)
    ensures forall n :: n in r <==> n in names
    ensures NoRepeat(names) ==> r == names
  {
    if names == [] then []
    else
      var init, last := names[..|names| - 1], names[|names| - 1];
      assert names == init + [last];
      if last in init then Dedupe(init) else Dedupe(init) + [last]
  }

  lemma DedupeAppend(names: seq<Name>, name: Name)
    requires NoRepeat(names)
    ensures Dedupe(names + [name]) == if name in names then names else names + [name]
  {
    assert (names + [name])[..|names|] == names;
  }

  function WithoutAll(names: seq<Name>, drop: seq<Name>): seq<Name>
    decreases |drop|
  {
    if drop == [] then names else Without(WithoutAll(names, drop[..|drop| - 1]), drop[|drop| - 1])
  }

  lemma {:induction false} WithoutAllFacts(names: seq<Name>, drop: seq<Name>)
    ensures forall n :: n in WithoutAll(names, drop) <==> n in names && n !in drop
    ensures NoRepeat(names) ==> NoRepeat(WithoutAll(names, drop))
    ensures (forall n :: n in names ==> n !in drop) ==> WithoutAll(names, drop) == names
    decreases |drop|
  {
    if drop != [] {
      var init, last := drop[..|drop| - 1], drop[|drop| - 1];
      assert drop == init + [last];
      WithoutAllFacts(names, init);
      WithoutFacts(WithoutAll(names, init), last);
    }
  }

  /** Image `id` gets exactly these names, and every other image loses them. */
  function Renamed(t: Table, id: Id, names: seq<Name>): Table {
    map i | i in t :: if i == id then names else WithoutAll(t[i], names)
  }

  function Reindexed(byname: map<Name, Id>, t: Table, id: Id, names: seq<Name>): map<Name, Id>
    requires id in t
  {
    map n | n in byname.Keys + (set m | m in names) && (n in names || n !in t[id]) ::
      if n in names then id else byname[n]
  }

  lemma RenamedLists(t: Table, id: Id, names: seq<Name>, i: Id, n: Name)
    requires id in t
    ensures Lists(Renamed(t, id, names), i, n) <==> if n in names then i == id else i != id && Lists(t, i, n)
  {
    if i in t {
      WithoutAllFacts(t[i], names);
    }
  }

  lemma RenamedNoRepeats(t: Table, id: Id, names: seq<Name>)
    requires NoRepeats(t) && id in t && NoRepeat(names)
    ensures NoRepeats(Renamed(t, id, names))
  {
    forall i | i in t {
      WithoutAllFacts(t[i], names);
    }
  }

  lemma RenamedPointing(byname: map<Name, Id>, t: Table, id: Id, names: seq<Name>)
    requires Pointing(byname, t) && id in t
    ensures Pointing(Reindexed(byname, t, id, names), Renamed(t, id, names))
  {
    var byname' := Reindexed(byname, t, id, names);
    forall n | n in byname'
      ensures Lists(Renamed(t, id, names), byname'[n], n)
    {
      RenamedLists(t, id, names, byname'[n], n);
    }
  }

  lemma RenamedCovering(byname: map<Name, Id>, t: Table, id: Id, names: seq<Name>)
    requires Covering(byname, t) && id in t
    ensures Covering(Reindexed(byname, t, id, names), Renamed(t, id, names))
  {
    var byname' := Reindexed(byname, t, id, names);
    forall i, n | Lists(Renamed(t, id, names), i, n)
      ensures n in byname' && byname'[n] == i
    {
      RenamedLists(t, id, names, i, n);
      if n !in names {
        assert n in byname && byname[n] == i;
        assert !Lists(t, id, n);
      }
    }
  }

  /** Renaming an image and its index together keeps the one the inverse of the other. */
  lemma RenamedInverse(byname: map<Name, Id>, t: Table, id: Id, names: seq<Name>)
    requires Inverse(byname, t) && id in t && NoRepeat(names)
    ensures Inverse(Reindexed(byname, t, id, names), Renamed(t, id, names))
  {
    RenamedNoRepeats(t, id, names);
    RenamedPointing(byname, t, id, names);
    RenamedCovering(byname, t, id, names);
  }

  function AddedName(t: Table, id: Id, name: Name): Table
    requires id in t
  {
    Renamed(t, id, Dedupe(t[id] + [name]))
  }

  /** AddName gives the name to its image, takes it from at most one other, and leaves every
      other name where it was. */
  lemma AddNameMoves(t: Table, id: Id, name: Name)
    requires Exclusive(t) && id in t
    ensures var t' := AddedName(t, id, name);
      && Exclusive(t') && t'.Keys == t.Keys
      && name in t'[id]
      && (forall i, m :: m != name ==> (Lists(t', i, m) <==> Lists(t, i, m)))
      && (forall i :: i in t && i != id ==> t'[i] == Without(t[i], name))
      && (forall i, j :: i in t && j in t && i != id && j != id && t'[i] != t[i] && t'[j] != t[j] ==> i == j)
  {
    var t', names := AddedName(t, id, name), Dedupe(t[id] + [name]);
    forall i | i in t && i != id
      ensures t'[i] == Without(t[i], name)
      ensures t'[i] != t[i] ==> Lists(t, i, name)
    {
      AddedOther(t, id, name, i);
      WithoutFacts(t[i], name);
    }
    RenamedNoRepeats(t, id, names);
    forall i, m
      ensures Lists(t', i, m) <==> if m in names then i == id else i != id && Lists(t, i, m)
    {
      RenamedLists(t, id, names, i, m);
    }
    assert forall m :: m in names <==> m == name || Lists(t, id, m);
  }

  lemma AddedOther(t: Table, id: Id, name: Name, i: Id)
    requires Exclusive(t) && id in t && i in t && i != id
    ensures AddedName(t, id, name)[i] == Without(t[i], name)
  {
    forall n | n in t[i]
      ensures n !in t[id]
    {
      assert Lists(t, i, n) && (Lists(t, id, n) ==> i == id);
    }
    DedupeAppend(t[id], name);
    WithoutAllFacts(t[i], t[id]);
    if name in t[id] {
      WithoutFacts(t[i], name);
    } else {
      assert (t[id] + [name])[..|t[id]|] == t[id];
    }
  }

  // ---- One name at a time ----

  /** Renaming in progress: the other images have lost these names, `id` is still to get its own. */
  function Taking(t: Table, id: Id, names: seq<Name>): Table {
    map i | i in t :: if i == id then t[i] else WithoutAll(t[i], names)
  }

  function Stripped(t: Table, byname: map<Name, Id>, name: Name): Table {
    if name in byname && byname[name] in t then t[byname[name] := Without(t[byname[name]], name)] else t
  }

  lemma TakingStart(byname: map<Name, Id>, t: Table, id: Id)
    requires Inverse(byname, t) && id in t
    ensures Taking(t, id, []) == t
    ensures Reindexed(byname, t, id, []) == byname - set n | n in t[id]
  {
  }

  lemma TakingEnd(t: Table, id: Id, names: seq<Name>)
    requires id in t
    ensures Taking(t, id, names)[id := names] == Renamed(t, id, names)
  {
  }

  lemma TakingLoser(byname: map<Name, Id>, t: Table, id: Id, names: seq<Name>, name: Name)
    requires Inverse(byname, t) && id in t && name !in names
    requires name in Reindexed(byname, t, id, names)
    ensures Reindexed(byname, t, id, names)[name] == byname[name] && byname[name] in t && byname[name] != id
  {
    assert Lists(t, byname[name], name);
  }

  lemma TakingIndexStep(byname: map<Name, Id>, t: Table, id: Id, names: seq<Name>, name: Name)
    requires id in t
    ensures Reindexed(byname, t, id, names)[name := id] == Reindexed(byname, t, id, names + [name])
  {
  }

  lemma TakingStepAt(byname: map<Name, Id>, t: Table, id: Id, names: seq<Name>, name: Name, i: Id)
    requires Inverse(byname, t) && id in t && name !in names && i in t && i != id
    ensures WithoutAll(t[i], names + [name]) ==
      if name in Reindexed(byname, t, id, names) && byname[name] == i then Without(WithoutAll(t[i], names), name)
      else WithoutAll(t[i], names)
  {
    assert (names + [name])[..|names|] == names;
    if !(name in Reindexed(byname, t, id, names) && byname[name] == i) {
      assert Lists(t, i, name) ==> name in byname && byname[name] == i;
      assert Lists(t, id, name) ==> name in byname && byname[name] == id;
      WithoutAllFacts(t[i], names);
      WithoutFacts(WithoutAll(t[i], names), name);
    }
  }

  /** Stripping the next name from the image that the index gives for it, if it gives one, is
      stripping it from all others. */
  lemma TakingStep(byname: map<Name, Id>, t: Table, id: Id, names: seq<Name>, name: Name)
    requires Inverse(byname, t) && id in t && name !in names
    ensures Stripped(Taking(t, id, names), Reindexed(byname, t, id, names), name) == Taking(t, id, names + [name])
  {
    if name in Reindexed(byname, t, id, names) {
      TakingLoser(byname, t, id, names, name);
    }
    forall i | i in t && i != id {
      TakingStepAt(byname, t, id, names, name, i);
    }
  }

  lemma TakingExclusive(t: Table, id: Id, names: seq<Name>)
    requires Exclusive(t)
    ensures Exclusive(Taking(t, id, names))
  {
    forall i | i in t {
      WithoutAllFacts(t[i], names);
    }
    assert forall i, n :: Lists(Taking(t, id, names), i, n) ==> Lists(t, i, n);
  }

  /** The names in memory, their index, the names in the record files, and what the record
      files held after each write. */
  datatype NameState = NameState(listed: Table, owners: map<Name, Id>, disk: Table, writes: seq<Table>)

  /** One turn of the renaming loops. */
  function TakeOne(s: NameState, id: Id, name: Name, saveLoser: bool): NameState {
    var listed := Stripped(s.listed, s.owners, name);
    var s' := s.(listed := listed, owners := s.owners[name := id]);
    if saveLoser && name in s.owners && s.owners[name] in listed then
      var disk := s.disk[s.owners[name] := listed[s.owners[name]]];
      s'.(disk := disk, writes := s.writes + [disk])
    else s'
  }

  function TakeAll(s: NameState, id: Id, names: seq<Name>, saveLosers: bool): NameState {
    if names == [] then s
    else TakeOne(TakeAll(s, id, names[..|names| - 1], saveLosers), id, names[|names| - 1], saveLosers)
  }

  /** The whole loop leaves the names as Renamed says, but for the image's own list. */
  lemma {:induction false} TakeAllTakes(s: NameState, id: Id, names: seq<Name>, saveLosers: bool)
    requires Inverse(s.owners, s.listed) && id in s.listed && NoRepeat(names)
    ensures var s' := TakeAll(Forgotten(s, id), id, names, saveLosers);
      && s'.listed == Taking(s.listed, id, names)
      && s'.owners == Reindexed(s.owners, s.listed, id, names)
      && (!saveLosers ==> s'.disk == s.disk && s'.writes == s.writes)
  {
    TakingStart(s.owners, s.listed, id);
    if names != [] {
      var init, last := names[..|names| - 1], names[|names| - 1];
      assert names == init + [last];
      TakeAllTakes(s, id, init, saveLosers);
      TakingStep(s.owners, s.listed, id, init, last);
      TakingIndexStep(s.owners, s.listed, id, init, last);
    }
  }

  lemma TakeAllRenames(s: NameState, id: Id, names: seq<Name>, saveLosers: bool)
    requires Inverse(s.owners, s.listed) && id in s.listed && NoRepeat(names)
    ensures var s' := TakeAll(Forgotten(s, id), id, names, saveLosers);
      && s'.listed[id := names] == Renamed(s.listed, id, names)
      && s'.owners == Reindexed(s.owners, s.listed, id, names)
      && (!saveLosers ==> s'.disk == s.disk && s'.writes == s.writes)
      && Inverse(s'.owners, s'.listed[id := names])
  {
    TakeAllTakes(s, id, names, saveLosers);
    TakingEnd(s.listed, id, names);
    RenamedInverse(s.owners, s.listed, id, names);
  }

  /** The renaming loop stopped because the record of the image that had names[k] could not be
      written: that image has lost the name, and the index still gives the name to it. */
  ghost predicate StoppedAt(s: NameState, s': NameState, id: Id, names: seq<Name>, k: nat) {
    && k < |names|
    && var t := TakeAll(s, id, names[..k], true);
       names[k] in t.owners && s' == t.(listed := Stripped(t.listed, t.owners, names[k]))
  }

  /** Only the new name of an AddName can meet another owner. */
  /** The record of the image that has the name cannot be written. */
  ghost predicate LoserStuck(owners: map<Name, Id>, name: Name, unwritable: set<Id>) {
    name in owners && owners[name] in unwritable
  }

  ghost predicate StuckAt(s: NameState, id: Id, names: seq<Name>, unwritable: set<Id>, k: nat) {
    k < |names| && LoserStuck(TakeAll(s, id, names[..k], true).owners, names[k], unwritable)
  }

  ghost predicate NoneStuck(s: NameState, id: Id, names: seq<Name>, unwritable: set<Id>) {
    forall k :: 0 <= k < |names| ==> !StuckAt(s, id, names, unwritable, k)
  }

  lemma NoneStuckNext(s: NameState, id: Id, names: seq<Name>, unwritable: set<Id>, k: nat)
    requires k < |names|
    ensures NoneStuck(s, id, names[..k + 1], unwritable) <==>
            NoneStuck(s, id, names[..k], unwritable) && !StuckAt(s, id, names, unwritable, k)
  {
    StuckInPart(s, id, names, unwritable, k);
    StuckInPart(s, id, names, unwritable, k + 1);
    assert !StuckAt(s, id, names[..k + 1], unwritable, k) <==> !StuckAt(s, id, names, unwritable, k);
    if NoneStuck(s, id, names[..k + 1], unwritable) {
      forall j | 0 <= j < k
        ensures !StuckAt(s, id, names[..k], unwritable, j)
      {
        assert !StuckAt(s, id, names[..k + 1], unwritable, j);
      }
    }
  }

  lemma StuckInPart(s: NameState, id: Id, names: seq<Name>, unwritable: set<Id>, k: nat)
    requires k <= |names|
    ensures forall j :: 0 <= j < k ==>
              (StuckAt(s, id, names[..k], unwritable, j) <==> StuckAt(s, id, names, unwritable, j))
  {
    forall j | 0 <= j < k
      ensures names[..k][..j] == names[..j]
    {
    }
  }

  /** AddName's loop is stuck exactly if another image has the name, and its record cannot be written. */
  lemma AddStuckIff(s: NameState, id: Id, name: Name, unwritable: set<Id>, saved: bool, k: nat)
    requires Inverse(s.owners, s.listed) && id in s.listed
    requires var names, start := Dedupe(s.listed[id] + [name]), Forgotten(s, id);
      if saved then NoneStuck(start, id, names, unwritable) else StuckAt(start, id, names, unwritable, k)
    ensures !saved <==> name in s.owners && s.owners[name] != id && s.owners[name] in unwritable
  {
    var own := s.listed[id];
    DedupeAppend(own, name);
    var names := Dedupe(own + [name]);
    assert own[..|own|] == own;
    OwnNamesFree(s, id, own, |own|);
    assert name in own <==> name in s.owners && s.owners[name] == id by {
      assert name in own ==> Lists(s.listed, id, name);
    }
    if name !in own {
      assert names[..|own|] == own && names[|own|] == name;
      assert StuckAt(Forgotten(s, id), id, names, unwritable, |own|) <==> LoserStuck(s.owners, name, unwritable);
    }
    if !saved && k < |own| {
      assert names[..k] == own[..k];
      OwnNamesFree(s, id, own, k);
      OwnNotIndexed(s.owners, s.listed, id, k);
    }
  }

  lemma {:induction false} OwnNamesFree(s: NameState, id: Id, names: seq<Name>, k: nat)
    requires Inverse(s.owners, s.listed) && id in s.listed && k <= |s.listed[id]|
    requires names == s.listed[id]
    ensures var s' := TakeAll(Forgotten(s, id), id, names[..k], true);
      && s'.listed == s.listed && s'.disk == s.disk && s'.writes == s.writes
      && s'.owners == Reindexed(s.owners, s.listed, id, names[..k])
      && (k == |names| ==> s'.owners == s.owners)
  {
    if k == 0 {
      TakingStart(s.owners, s.listed, id);
    } else {
      OwnNamesFree(s, id, names, k - 1);
      OwnNotIndexed(s.owners, s.listed, id, k - 1);
      assert names[..k][..k - 1] == names[..k - 1];
      assert names[..k] == names[..k - 1] + [names[k - 1]];
      TakingIndexStep(s.owners, s.listed, id, names[..k - 1], names[k - 1]);
    }
    if k == |names| {
      assert names[..k] == names;
      OwnReindexed(s.owners, s.listed, id);
    }
  }

  lemma OwnReindexed(byname: map<Name, Id>, t: Table, id: Id)
    requires Inverse(byname, t) && id in t
    ensures Reindexed(byname, t, id, t[id]) == byname
  {
    forall n | n in t[id]
      ensures n in byname && byname[n] == id
    {
      assert Lists(t, id, n);
    }
  }

  function Forgotten(s: NameState, id: Id): NameState
    requires id in s.listed
  {
    s.(owners := s.owners - set n | n in s.listed[id])
  }

  lemma OwnNotIndexed(byname: map<Name, Id>, t: Table, id: Id, k: nat)
    requires id in t && NoRepeat(t[id]) && k < |t[id]|
    ensures t[id][k] !in Reindexed(byname, t, id, t[id][..k])
  {
  }

  /** Where AddName can stop, and what it has done by then. */
  lemma AddStoppedAt(s: NameState, s': NameState, id: Id, name: Name, k: nat)
    requires Inverse(s.owners, s.listed) && id in s.listed
    requires StoppedAt(Forgotten(s, id), s', id, Dedupe(s.listed[id] + [name]), k)
    ensures name in s.owners && s' == s.(listed := Stripped(s.listed, s.owners, name))
  {
    var own := s.listed[id];
    DedupeAppend(own, name);
    var names := Dedupe(own + [name]);
    if k < |own| {
      assert names[..k] == own[..k];
      OwnNamesFree(s, id, own, k);
      OwnNotIndexed(s.owners, s.listed, id, k);
      assert false;
    }
    assert names[..k] == own;
    assert own[..k] == own;
    OwnNamesFree(s, id, own, k);
  }

  ghost predicate NewWritesExclusive(before: seq<Table>, after: seq<Table>) {
    before <= after && forall k :: |before| <= k < |after| ==> Exclusive(after[k])
  }

  /** A single write after which the record files say what memory says. */
  lemma WrittenInStep(before: seq<Table>, after: seq<Table>, disk: Table, owners: map<Name, Id>, t: Table)
    requires Inverse(owners, t) && (after == before || after == before + [disk])
    ensures disk == t ==> NewWritesExclusive(before, after)
    ensures after == before ==> NewWritesExclusive(before, after)
  {
    InverseExclusive(owners, t);
  }

  lemma OwnTaken(s: NameState, id: Id)
    requires Inverse(s.owners, s.listed) && id in s.listed
    ensures TakeAll(Forgotten(s, id), id, s.listed[id], true) == s
  {
    var own := s.listed[id];
    OwnNamesFree(s, id, own, |own|);
    assert own[..|own|] == own;
  }

  lemma TakeAllMore(s: NameState, id: Id, names: seq<Name>, name: Name)
    ensures TakeAll(s, id, names + [name], true) == TakeOne(TakeAll(s, id, names, true), id, name, true)
  {
    assert (names + [name])[..|names|] == names;
  }

  /** AddName's loop has nothing to take but the new name. */
  lemma AddTakes(s: NameState, id: Id, name: Name)
    requires Inverse(s.owners, s.listed) && id in s.listed
    ensures TakeAll(Forgotten(s, id), id, Dedupe(s.listed[id] + [name]), true) ==
            if name in s.listed[id] then s else TakeOne(s, id, name, true)
  {
    OwnTaken(s, id);
    DedupeAppend(s.listed[id], name);
    TakeAllMore(Forgotten(s, id), id, s.listed[id], name);
  }

  /** While AddName's loop runs, the record files follow memory, and no write leaves a name in
      two of them. */
  lemma AddWrites(s: NameState, id: Id, name: Name)
    requires Inverse(s.owners, s.listed) && id in s.listed && s.disk == s.listed
    ensures var s' := TakeAll(Forgotten(s, id), id, Dedupe(s.listed[id] + [name]), true);
      s'.disk == s'.listed && NewWritesExclusive(s.writes, s'.writes)
  {
    AddTakes(s, id, name);
    if name !in s.listed[id] {
      var names := Dedupe(s.listed[id] + [name]);
      InverseExclusive(s.owners, s.listed);
      TakingExclusive(s.listed, id, names);
      TakeAllTakes(s, id, names, true);
    }
  }

  /** What AddName comes to when every record can be written, and what it has put on disk before
      the last write. */
  lemma AddNameDone(s: NameState, id: Id, name: Name)
    requires Inverse(s.owners, s.listed) && id in s.listed
    ensures var names := Dedupe(s.listed[id] + [name]);
      var s' := TakeAll(Forgotten(s, id), id, names, true);
      && s'.listed[id := names] == AddedName(s.listed, id, name)
      && Inverse(s'.owners, s'.listed[id := names])
      && (s.disk == s.listed ==>
            && s'.disk == s'.listed
            && NewWritesExclusive(s.writes, s'.writes)
            && NewWritesExclusive(s.writes, s'.writes + [s'.disk[id := names]]))
  {
    var names := Dedupe(s.listed[id] + [name]);
    TakeAllRenames(s, id, names, true);
    if s.disk == s.listed {
      AddWrites(s, id, name);
      var s' := TakeAll(Forgotten(s, id), id, names, true);
      InverseExclusive(s'.owners, s'.listed[id := names]);
    }
  }

  // ---- Whole operations whose writes all work ----

  function Recorded(s: NameState, id: Id, names: seq<Name>): NameState {
    s.(listed := s.listed[id := names], disk := s.disk[id := names], writes := s.writes + [s.disk[id := names]])
  }

  function CreatedIn(s: NameState, id: Id, names: seq<Name>): NameState {
    Recorded(s.(owners := Indexed(s.owners, id, names)), id, names)
  }

  function AddedIn(s: NameState, id: Id, name: Name): NameState
    requires id in s.listed
  {
    var names := Dedupe(s.listed[id] + [name]);
    Recorded(TakeAll(Forgotten(s, id), id, names, true), id, names)
  }

  function SetIn(s: NameState, id: Id, names: seq<Name>): NameState
    requires id in s.listed
  {
    var disk := s.disk[id := names];
    NameState(Renamed(s.listed, id, names), Reindexed(s.owners, s.listed, id, names), disk, s.writes + [disk])
  }

  function DeletedIn(s: NameState, id: Id): NameState
    requires id in s.listed
  {
    NameState(s.listed - {id}, s.owners - (set n | n in s.listed[id]), s.disk - {id}, s.writes + [s.disk - {id}])
  }

  /** Creating an image adds it with all the names given, each once, and changes nothing else. */
  lemma CreatedMeans(s: NameState, id: Id, given: seq<Name>)
    requires id !in s.listed
    ensures var s' := CreatedIn(s, id, Dedupe(given));
      && (forall i, n :: Lists(s'.listed, i, n) <==> if i == id then n in given else Lists(s.listed, i, n))
      && s'.listed.Keys == s.listed.Keys + {id} && NoRepeat(s'.listed[id])
      && (forall n :: n in s'.owners <==> n in given || n in s.owners)
      && (forall n :: n in s'.owners ==> s'.owners[n] == if n in given then id else s.owners[n])
      && (forall i :: i in s'.disk <==> i == id || i in s.disk)
      && (forall i :: i in s'.disk ==> s'.disk[i] == if i == id then s'.listed[id] else s.disk[i])
      && s'.writes == s.writes + [s'.disk]
  {
    forall i, n
      ensures Lists(CreatedIn(s, id, Dedupe(given)).listed, i, n) <==>
        if i == id then n in given else Lists(s.listed, i, n)
    {
    }
  }

  /** Deleting one takes it, its names and its record away, and nothing else. */
  lemma DeletedMeans(s: NameState, id: Id)
    requires id in s.listed
    ensures var s' := DeletedIn(s, id);
      && (forall i, n :: Lists(s'.listed, i, n) <==> i != id && Lists(s.listed, i, n))
      && (forall i :: i in s'.listed <==> i in s.listed && i != id)
      && (forall n :: n in s'.owners <==> n in s.owners && n !in s.listed[id])
      && (forall n :: n in s'.owners ==> s'.owners[n] == s.owners[n])
      && (forall i :: i in s'.disk <==> i in s.disk && i != id)
      && (forall i :: i in s'.disk ==> s'.disk[i] == s.disk[i])
      && s'.writes == s.writes + [s'.disk]
  {
  }

  /** The writes of an AddName: the record of the former owner without the name, if there is one,
      and then the image's own record. */
  lemma AddWritesAre(s: NameState, id: Id, name: Name)
    requires Inverse(s.owners, s.listed) && id in s.listed && s.disk == s.listed
    ensures AddedIn(s, id, name).disk == AddedName(s.listed, id, name)
    ensures AddedIn(s, id, name).writes ==
            s.writes + (if name in s.owners && s.owners[name] != id then [Stripped(s.listed, s.owners, name)] else [])
            + [AddedName(s.listed, id, name)]
  {
    AddNameDone(s, id, name);
    AddTakes(s, id, name);
    if name in s.listed[id] {
      assert Lists(s.listed, id, name);
    } else {
      TakeWrites(s, id, name);
    }
  }

  lemma TakeWrites(s: NameState, id: Id, name: Name)
    requires Inverse(s.owners, s.listed) && id in s.listed && s.disk == s.listed && name !in s.listed[id]
    ensures TakeOne(s, id, name, true).writes ==
            s.writes + (if name in s.owners && s.owners[name] != id then [Stripped(s.listed, s.owners, name)] else [])
  {
    if name in s.owners {
      assert Lists(s.listed, s.owners[name], name);
    }
  }

  /** SetNames saves only the record of its own image: starting from records that agree with
      memory, it leaves some name in two records exactly when it takes one from another image. */
  lemma SetNamesDiskIff(t: Table, id: Id, names: seq<Name>)
    requires Exclusive(t) && id in t && NoRepeat(names)
    ensures Exclusive(t[id := names]) <==> forall i :: i in t && i != id ==> Disjoint(t[i], names)
  {
    var t' := t[id := names];
    if Exclusive(t') {
      forall i, n | i in t && i != id && n in t[i]
        ensures n !in names
      {
        assert Lists(t', i, n) && (Lists(t', id, n) ==> i == id);
      }
    }
    if forall i :: i in t && i != id ==> Disjoint(t[i], names) {
      forall i, j, n | Lists(t', i, n) && Lists(t', j, n)
        ensures i == j
      {
        assert i != id ==> Lists(t, i, n);
        assert j != id ==> Lists(t, j, n);
      }
    }
  }

  /** Narrowing an image's own names, as removing a reference does, touches nothing else. */
  lemma SetNamesSubset(t: Table, id: Id, names: seq<Name>)
    requires Exclusive(t) && id in t && NoRepeat(names) && forall n :: n in names ==> n in t[id]
    ensures Renamed(t, id, names) == t[id := names] && Exclusive(t[id := names])
  {
    forall i | i in t && i != id
      ensures WithoutAll(t[i], names) == t[i]
      ensures Disjoint(t[i], names)
    {
      forall n | n in t[i]
        ensures n !in names
      {
        assert Lists(t, i, n) && (Lists(t, id, n) ==> i == id);
      }
      WithoutAllFacts(t[i], names);
    }
    SetNamesDiskIff(t, id, names);
  }

  // ---- Loading ----

  datatype Record = Record(id: Id, names: seq<Name>)

  ghost predicate DistinctRecords(records: seq<Record>) {
    && (forall i, j :: 0 <= i < j < |records| ==> records[i].id != records[j].id)
    && forall i :: 0 <= i < |records| ==> NoRepeat(records[i].names)
  }

  /** Taking in one record: it takes its names from whichever images had them. */
  ghost function TakenIn(t: Table, r: Record): Table {
    Renamed(t[r.id := []], r.id, r.names)
  }

  ghost function TakenInIndex(byname: map<Name, Id>, t: Table, r: Record): map<Name, Id> {
    Reindexed(byname, t[r.id := []], r.id, r.names)
  }

  /** The tables after the first `k` records were taken in. */
  ghost function Loaded(records: seq<Record>, k: nat): Table
    requires k <= |records|
  {
    if k == 0 then map[] else TakenIn(Loaded(records, k - 1), records[k - 1])
  }

  ghost function LoadedIndex(records: seq<Record>, k: nat): map<Name, Id>
    requires k <= |records|
  {
    if k == 0 then map[] else TakenInIndex(LoadedIndex(records, k - 1), Loaded(records, k - 1), records[k - 1])
  }

  lemma {:induction false} LoadedKeys(records: seq<Record>, k: nat)
    requires k <= |records|
    ensures Loaded(records, k).Keys == set j | 0 <= j < k :: records[j].id
  {
    if k > 0 {
      LoadedKeys(records, k - 1);
    }
  }

  lemma NewcomerInverse(byname: map<Name, Id>, t: Table, id: Id)
    requires Inverse(byname, t) && id !in t
    ensures Inverse(byname, t[id := []])
  {
    var t' := t[id := []];
    forall n | n in byname
      ensures Lists(t', byname[n], n)
    {
      assert Lists(t, byname[n], n);
    }
    forall i, n | Lists(t', i, n)
      ensures Lists(t, i, n)
    {
    }
  }

  lemma TakenInInverse(byname: map<Name, Id>, t: Table, r: Record)
    requires Inverse(byname, t) && r.id !in t && NoRepeat(r.names)
    ensures Inverse(TakenInIndex(byname, t, r), TakenIn(t, r))
  {
    NewcomerInverse(byname, t, r.id);
    RenamedInverse(byname, t[r.id := []], r.id, r.names);
  }

  lemma NextRecord(records: seq<Record>, k: nat)
    requires k < |records| && DistinctRecords(records)
    ensures records[k].id !in Loaded(records, k) && NoRepeat(records[k].names)
  {
    LoadedKeys(records, k);
  }

  /** Whatever conflicts the records hold, the index is the exact inverse of the loaded names. */
  lemma {:induction false} LoadedInverse(records: seq<Record>, k: nat)
    requires k <= |records| && DistinctRecords(records)
    ensures Inverse(LoadedIndex(records, k), Loaded(records, k))
  {
    if k > 0 {
      var t, byname, r := Loaded(records, k - 1), LoadedIndex(records, k - 1), records[k - 1];
      assert Inverse(byname, t) by {
        LoadedInverse(records, k - 1);
      }
      assert r.id !in t && NoRepeat(r.names) by {
        NextRecord(records, k - 1);
      }
      TakenInInverse(byname, t, r);
    }
  }

  lemma TakenInLists(t: Table, r: Record, i: Id, n: Name)
    ensures Lists(TakenIn(t, r), i, n) <==> if n in r.names then i == r.id else i != r.id && Lists(t, i, n)
  {
    RenamedLists(t[r.id := []], r.id, r.names, i, n);
  }

  /** A name ends up with the last record that lists it, and with no other. */
  lemma {:induction false} LastRecordWins(records: seq<Record>, k: nat, j: nat, n: Name)
    requires j < k <= |records| && DistinctRecords(records)
    ensures Lists(Loaded(records, k), records[j].id, n) <==>
      n in records[j].names && forall m :: j < m < k ==> n !in records[m].names
    decreases k
  {
    var r, i := records[k - 1], records[j].id;
    LastTurn(records, k, i, n);
    if j < k - 1 {
      assert i != r.id;
      LastRecordWins(records, k - 1, j, n);
      LaterBefore(records, k, j, n);
    }
  }

  lemma LastTurn(records: seq<Record>, k: nat, i: Id, n: Name)
    requires 0 < k <= |records| && DistinctRecords(records)
    ensures var r := records[k - 1];
      Lists(Loaded(records, k), i, n) <==>
        if n in r.names then i == r.id else i != r.id && Lists(Loaded(records, k - 1), i, n)
  {
    TakenInLists(Loaded(records, k - 1), records[k - 1], i, n);
  }

  lemma LaterBefore(records: seq<Record>, k: nat, j: nat, n: Name)
    requires j < k - 1 < |records|
    ensures (forall m :: j < m < k ==> n !in records[m].names) <==>
            n !in records[k - 1].names && forall m :: j < m < k - 1 ==> n !in records[m].names
  {
  }

  lemma TakenInIndexKeys(byname: map<Name, Id>, t: Table, r: Record)
    ensures TakenInIndex(byname, t, r).Keys == byname.Keys + set n | n in r.names
  {
  }

  /** One of the first `k` records has the name. */
  ghost predicate Named(records: seq<Record>, k: nat, n: Name)
    requires k <= |records|
  {
    exists j :: 0 <= j < k && n in records[j].names
  }

  /** No name is lost in loading: the index has the names of all records. */
  lemma {:induction false} NoNameLost(records: seq<Record>, k: nat)
    requires k <= |records| && DistinctRecords(records)
    ensures forall n :: n in LoadedIndex(records, k) <==> Named(records, k, n)
  {
    if k > 0 {
      NoNameLost(records, k - 1);
      TakenInIndexKeys(LoadedIndex(records, k - 1), Loaded(records, k - 1), records[k - 1]);
      forall n
        ensures n in LoadedIndex(records, k) <==> Named(records, k, n)
      {
        LastOrBefore(records, k, n);
      }
    }
  }

  lemma LastOrBefore(records: seq<Record>, k: nat, n: Name)
    requires 0 < k <= |records|
    ensures Named(records, k, n) <==> Named(records, k - 1, n) || n in records[k - 1].names
  {
  }

  /** The records are the entries of the table, in some order. */
  ghost predicate Listing(records: seq<Record>, t: Table) {
    && DistinctRecords(records)
    && (forall i :: 0 <= i < |records| ==> records[i].id in t && t[records[i].id] == records[i].names)
    && forall id :: id in t ==> exists i :: 0 <= i < |records| && records[i].id == id
  }

  lemma LoadStep(records: seq<Record>, t: Table, k: nat)
    requires k < |records| && Listing(records, t)
    ensures var r := records[k];
      && r.id !in Loaded(records, k) && NoRepeat(r.names) && r.id in t && t[r.id] == r.names
      && Inverse(LoadedIndex(records, k), Loaded(records, k))
      && Loaded(records, k + 1) == TakenIn(Loaded(records, k), r)
      && LoadedIndex(records, k + 1) == TakenInIndex(LoadedIndex(records, k), Loaded(records, k), r)
  {
    NextRecord(records, k);
    LoadedInverse(records, k);
  }

  lemma TakenInOwn(t: Table, r: Record)
    ensures r.id in TakenIn(t, r) && TakenIn(t, r)[r.id] == r.names
  {
  }

  lemma TakenInKeeps(t: Table, r: Record, i: Id)
    requires i in t && i != r.id && Disjoint(t[i], r.names)
    ensures i in TakenIn(t, r) && TakenIn(t, r)[i] == t[i]
  {
    WithoutAllFacts(t[i], r.names);
  }

  /** A record whose names no later record lists keeps them all, in order. */
  lemma {:induction false} UndisputedKept(records: seq<Record>, k: nat, j: nat)
    requires j < k <= |records| && DistinctRecords(records)
    requires forall m :: j < m < k ==> Disjoint(records[j].names, records[m].names)
    ensures records[j].id in Loaded(records, k) && Loaded(records, k)[records[j].id] == records[j].names
    decreases k
  {
    var t, r := Loaded(records, k - 1), records[k - 1];
    if j == k - 1 {
      TakenInOwn(t, r);
    } else {
      UndisputedKept(records, k - 1, j);
      assert Disjoint(records[j].names, r.names) && records[j].id != r.id;
      TakenInKeeps(t, r, records[j].id);
    }
  }

  lemma ListedDisjoint(records: seq<Record>, t: Table, j: nat, m: nat)
    requires Listing(records, t) && Exclusive(t) && j < m < |records|
    ensures Disjoint(records[j].names, records[m].names)
  {
    forall n | n in records[j].names
      ensures n !in records[m].names
    {
      assert Lists(t, records[j].id, n);
      assert !Lists(t, records[m].id, n);
    }
  }

  lemma LoadedEntry(records: seq<Record>, t: Table, j: nat)
    requires Listing(records, t) && Exclusive(t) && j < |records|
    ensures records[j].id in Loaded(records, |records|) && Loaded(records, |records|)[records[j].id] == records[j].names
  {
    forall m | j < m < |records|
      ensures Disjoint(records[j].names, records[m].names)
    {
      ListedDisjoint(records, t, j, m);
    }
    UndisputedKept(records, |records|, j);
  }

  /** Loading the records of a conflict-free table in any order gives the table back. */
  lemma LoadGivesBack(records: seq<Record>, t: Table)
    requires Listing(records, t) && Exclusive(t)
    ensures Loaded(records, |records|) == t
  {
    var loaded := Loaded(records, |records|);
    assert loaded.Keys == t.Keys by {
      LoadedKeys(records, |records|);
    }
    forall id | id in t
      ensures id in loaded && loaded[id] == t[id]
    {
      var j :| 0 <= j < |records| && records[j].id == id;
      LoadedEntry(records, t, j);
    }
  }

  lemma TakeOneOwnList(s: NameState, id: Id, name: Name, own: seq<Name>)
    requires id in s.listed && (name in s.owners ==> s.owners[name] != id)
    ensures var s' := TakeOne(s, id, name, false);
      TakeOne(s.(listed := s.listed[id := own]), id, name, false) == s'.(listed := s'.listed[id := own])
  {
    if name in s.owners && s.owners[name] in s.listed {
      var o := s.owners[name];
      assert s.listed[id := own][o := Without(s.listed[o], name)] ==
        s.listed[o := Without(s.listed[o], name)][id := own];
    }
  }

  lemma TakenIndex(s: NameState, id: Id, names: seq<Name>)
    requires Inverse(s.owners, s.listed) && id in s.listed && s.listed[id] == [] && NoRepeat(names)
    ensures var s' := TakeAll(s, id, names, false);
      id in s'.listed && s'.owners == Reindexed(s.owners, s.listed, id, names)
  {
    assert Forgotten(s, id) == s;
    TakeAllTakes(s, id, names, false);
  }

  /** In the loading loop the record's image has its whole list from the start; the other images
      and the index do not notice. */
  lemma {:induction false} TakeAllOwnList(s: NameState, id: Id, names: seq<Name>, own: seq<Name>)
    requires Inverse(s.owners, s.listed) && id in s.listed && s.listed[id] == [] && NoRepeat(names)
    ensures var s' := TakeAll(s, id, names, false);
      TakeAll(s.(listed := s.listed[id := own]), id, names, false) == s'.(listed := s'.listed[id := own])
  {
    if names != [] {
      var init, last := names[..|names| - 1], names[|names| - 1];
      assert names == init + [last];
      TakeAllOwnList(s, id, init, own);
      TakenIndex(s, id, init);
      if last in Reindexed(s.owners, s.listed, id, init) {
        TakingLoser(s.owners, s.listed, id, init, last);
      }
      TakeOneOwnList(TakeAll(s, id, init, false), id, last, own);
    }
  }

  /** One record of the loading loop. */
  lemma LoadTurn(s: NameState, r: Record)
    requires Inverse(s.owners, s.listed) && r.id !in s.listed && NoRepeat(r.names)
    ensures var s' := TakeAll(s.(listed := s.listed[r.id := r.names]), r.id, r.names, false);
      && s'.listed == TakenIn(s.listed, r)
      && s'.owners == TakenInIndex(s.owners, s.listed, r)
      && s'.disk == s.disk && s'.writes == s.writes
      && Inverse(s'.owners, s'.listed)
  {
    NewcomerInverse(s.owners, s.listed, r.id);
    var t := s.(listed := s.listed[r.id := []]);
    assert Forgotten(t, r.id) == t;
    TakeAllRenames(t, r.id, r.names, false);
    TakeAllOwnList(t, r.id, r.names, r.names);
    assert t.listed[r.id := r.names] == s.listed[r.id := r.names];
  }

  lemma DeletedUnpointed(byname: map<Name, Id>, t: Table, id: Id)
    requires Inverse(byname, t) && id in t
    ensures forall n :: n in byname && n !in t[id] ==> byname[n] != id
  {
    forall n | n in byname
      ensures Lists(t, byname[n], n)
    {
    }
  }

  lemma DeletedInverse(byname: map<Name, Id>, t: Table, id: Id)
    requires Inverse(byname, t) && id in t
    ensures Inverse(byname - (set n | n in t[id]), t - {id})
  {
    var byname', t' := byname - (set n | n in t[id]), t - {id};
    forall n | n in byname'
      ensures Lists(t', byname'[n], n)
    {
      assert Lists(t, byname[n], n);
    }
    forall i, n | Lists(t', i, n)
      ensures n in byname' && byname'[n] == i
    {
      assert Lists(t, i, n);
      assert Lists(t, id, n) ==> i == id;
    }
  }

  /** The index with more names pointing to `id`. */
  function Indexed(byname: map<Name, Id>, id: Id, names: seq<Name>): map<Name, Id> {
    map n | n in byname.Keys + (set m | m in names) :: if n in names then id else byname[n]
  }

  lemma IndexedStep(byname: map<Name, Id>, id: Id, names: seq<Name>, name: Name)
    ensures Indexed(byname, id, names)[name := id] == Indexed(byname, id, names + [name])
  {
  }

  lemma IndexedNone(byname: map<Name, Id>, id: Id)
    ensures Indexed(byname, id, []) == byname
  {
  }

  /** A new image with names nobody has. */
  lemma CreatedInverse(byname: map<Name, Id>, t: Table, id: Id, names: seq<Name>)
    requires Inverse(byname, t) && id !in t && NoRepeat(names)
    requires forall n :: n in names ==> n !in byname
    ensures Inverse(Indexed(byname, id, names), t[id := names])
  {
    var byname', t' := Indexed(byname, id, names), t[id := names];
    forall n | n in byname'
      ensures Lists(t', byname'[n], n)
    {
      if n !in names {
        assert Lists(t, byname[n], n);
      }
    }
    forall i, n | Lists(t', i, n)
      ensures n in byname' && byname'[n] == i
    {
      if i != id {
        assert Lists(t, i, n);
      }
    }
  }
}
