/** The index from a digest to the IDs of the layers that carry it. */
module DigestIndex {
  import opened Slices

  type Id = string

  type Digest = string

  type Index = map<Digest, seq<Id>>

  ghost predicate Carries(carried: map<Id, Digest>, d: Digest, id: Id) {
    d != "" && id in carried && carried[id] == d
  }

  /** Each digest that layers carry maps to exactly their IDs, each once; "" and the digests
      nobody carries are not in the index. */
  ghost predicate Agrees(index: Index, carried: map<Id, Digest>) {
    && (forall d :: d in index ==> index[d] != [] && NoRepeat(index[d]))
    && (forall d, id :: d in index && id in index[d] ==> Carries(carried, d, id))
    && forall d, id :: Carries(carried, d, id) ==> d in index && id in index[d]
  }

  function At(index: Index, d: Digest): seq<Id> {
    if d in index then index[d] else []
  }

  function Removed(index: Index, d: Digest, id: Id): Index {
    if d == "" then index
    else if Without(At(index, d), id) != [] then index[d := Without(At(index, d), id)]
    else index - {d}
  }

  function Inserted(index: Index, d: Digest, id: Id): Index {
    if d == "" then index else index[d := At(index, d) + [id]]
  }

  method UpdateDigestMap(index: Index, oldvalue: Digest, newvalue: Digest, id: Id) returns (index': Index)
    ensures index' == Inserted(Removed(index, oldvalue, id), newvalue, id)
  {
    index' := index;
    var newList: seq<Id> := [];
    if oldvalue != "" {
      var list := At(index', oldvalue);
      for k := 0 to |list|
        invariant newList == Without(list[..k], id)
      {
        assert list[..k + 1] == list[..k] + [list[k]];
        WithoutConcat(list[..k], [list[k]], id);
        if list[k] != id {
          newList := newList + [list[k]];
        }
      }
      assert list[..|list|] == list;
      if |newList| > 0 {
        index' := index'[oldvalue := newList];
      } else {
        index' := index' - {oldvalue};
      }
    }
    if newvalue != "" {
      index' := index'[newvalue := At(index', newvalue) + [id]];
    }
  }

  lemma RemovedAt(index: Index, carried: map<Id, Digest>, d: Digest, id: Id)
    requires Agrees(index, carried) && (id in carried ==> carried[id] == d) && (id !in carried ==> d == "")
    ensures Agrees(Removed(index, d, id), carried - {id})
  {
    var index' := Removed(index, d, id);
    WithoutFacts(At(index, d), id);
    forall e, x | e in index' && x in index'[e]
      ensures Carries(carried - {id}, e, x)
    {
      assert e in index && x in index[e];
      assert Carries(carried, e, x);
    }
    forall e, x | Carries(carried - {id}, e, x)
      ensures e in index' && x in index'[e]
    {
      assert Carries(carried, e, x);
      if e == d {
        assert x in Without(At(index, d), id);
      }
    }
  }

  lemma InsertedAt(index: Index, carried: map<Id, Digest>, d: Digest, id: Id)
    requires Agrees(index, carried) && id !in carried
    ensures Agrees(Inserted(index, d, id), carried[id := d])
  {
    var index', carried' := Inserted(index, d, id), carried[id := d];
    assert id in At(index, d) ==> Carries(carried, d, id);
    forall e, x | e in index' && x in index'[e]
      ensures Carries(carried', e, x)
    {
      if !(e == d && x == id) {
        assert Carries(carried, e, x);
      }
    }
    forall e, x | Carries(carried', e, x)
      ensures e in index' && x in index'[e]
    {
      if x != id {
        assert Carries(carried, e, x);
      }
    }
  }

  /** A layer whose digest changes, from none or to none included, is moved in the index. */
  lemma UpdateAgrees(index: Index, carried: map<Id, Digest>, newvalue: Digest, id: Id)
    requires Agrees(index, carried) && id in carried
    ensures Agrees(Inserted(Removed(index, carried[id], id), newvalue, id), carried[id := newvalue])
  {
    RemovedAt(index, carried, carried[id], id);
    InsertedAt(Removed(index, carried[id], id), carried - {id}, newvalue, id);
    assert (carried - {id})[id := newvalue] == carried[id := newvalue];
  }

  method MoveDigest(index: Index, ghost carried: map<Id, Digest>, oldvalue: Digest, newvalue: Digest, id: Id)
    returns (index': Index)
    requires Agrees(index, carried) && id in carried && carried[id] == oldvalue
    ensures Agrees(index', carried[id := newvalue])
  {
    UpdateAgrees(index, carried, newvalue, id);
    index' := UpdateDigestMap(index, oldvalue, newvalue, id);
  }

  // ---- Loading and runs ----

  datatype Record = Record(id: Id, digest: Digest)

  /** The loading loop appends each record's ID to the list of its digest. */
  function Loaded(records: seq<Record>): Index {
    if records == [] then map[]
    else Inserted(Loaded(records[..|records| - 1]), records[|records| - 1].digest, records[|records| - 1].id)
  }

  function LoadedCarried(records: seq<Record>): map<Id, Digest> {
    if records == [] then map[]
    else LoadedCarried(records[..|records| - 1])[records[|records| - 1].id := records[|records| - 1].digest]
  }

  lemma {:induction false} LoadedAgrees(records: seq<Record>)
    requires forall i, j :: 0 <= i < j < |records| ==> records[i].id != records[j].id
    ensures Agrees(Loaded(records), LoadedCarried(records))
    ensures LoadedCarried(records).Keys == set r | r in records :: r.id
  {
    if records != [] {
      var init, last := records[..|records| - 1], records[|records| - 1];
      assert records == init + [last];
      LoadedAgrees(init);
      InsertedAt(Loaded(init), LoadedCarried(init), last.digest, last.id);
    }
  }

  /** A new layer carries nothing yet, applying a diff gives it a digest, deleting takes it away;
      loading starts over with the records of the layers there are. */
  datatype DigestOp = Put(id: Id) | ApplyDiff(id: Id, digest: Digest) | Delete(id: Id) | Load(records: seq<Record>)

  ghost predicate Step(index: Index, carried: map<Id, Digest>, op: DigestOp, index': Index, carried': map<Id, Digest>) {
    match op
    case Put(id) => id !in carried && index' == index && carried' == carried[id := ""]
    case ApplyDiff(id, d) =>
      id in carried && index' == Inserted(Removed(index, carried[id], id), d, id) && carried' == carried[id := d]
    case Delete(id) =>
      id in carried && index' == Inserted(Removed(index, carried[id], id), "", id) && carried' == carried - {id}
    case Load(records) =>
      && (forall i, j :: 0 <= i < j < |records| ==> records[i].id != records[j].id)
      && LoadedCarried(records) == carried && index' == Loaded(records) && carried' == carried
  }

  lemma StepAgrees(index: Index, carried: map<Id, Digest>, op: DigestOp, index': Index, carried': map<Id, Digest>)
    requires Agrees(index, carried) && Step(index, carried, op, index', carried')
    ensures Agrees(index', carried')
  {
    match op
    case Put(id) =>
      InsertedAt(index, carried, "", id);
    case ApplyDiff(id, d) =>
      UpdateAgrees(index, carried, d, id);
    case Delete(id) =>
      RemovedAt(index, carried, carried[id], id);
    case Load(records) =>
      LoadedAgrees(records);
  }

  /** Over every run that starts with an empty store the index agrees with the layers. */
  lemma {:induction false} RunsAgree(indexes: seq<Index>, carrieds: seq<map<Id, Digest>>, ops: seq<DigestOp>, n: nat)
    requires |indexes| == |carrieds| == |ops| + 1 && n <= |ops|
    requires indexes[0] == map[] && carrieds[0] == map[]
    requires forall i :: 0 <= i < |ops| ==> Step(indexes[i], carrieds[i], ops[i], indexes[i + 1], carrieds[i + 1])
    ensures Agrees(indexes[n], carrieds[n])
  {
    if n > 0 {
      RunsAgree(indexes, carrieds, ops, n - 1);
      StepAgrees(indexes[n - 1], carrieds[n - 1], ops[n - 1], indexes[n], carrieds[n]);
    }
  }
}
