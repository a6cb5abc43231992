/** The layer store outside daemon mode: every process saves the whole list under the lock, but
    Delete does not save. */
module SharedLayers {
  import opened Coherence
  import opened FileLocker
  import opened Names
  import opened Options

  datatype Op =
    | Get(key: string)
    | Put(id: Id, names: seq<Name>)
    | Delete(key: string)

  datatype Answer = Refused | Listed(id: Id, names: seq<Name>) | Done

  /** The layer store's operations on the list of layers. */
  ghost function Apply(op: Op, t: Table): (Table, Answer) {
    match op
    case Get(key) =>
      var found := LookupIn(t, key);
      (t, if found.Some? then Answer.Listed(found.value, t[found.value]) else Refused)
    case Put(id, names) =>
      if id in t || exists i, n :: Lists(t, i, n) && n in names then (t, Refused) else (t[id := Dedupe(names)], Done)
    case Delete(key) => if LookupIn(t, key).Some? then (t - {LookupIn(t, key).value}, Done) else (t, Refused)
  }

  /** What each operation answers, and what it leaves, in terms of IDs and names alone. */
  ghost predicate OpMeans(op: Op, t: Table, t': Table, r: Answer) {
    match op
    case Get(key) =>
      && t' == t && (forall i :: StandsFor(t, key, i) ==> r == Answer.Listed(i, t[i]))
      && ((forall i :: !StandsFor(t, key, i)) ==> r == Refused)
    case Put(id, names) =>
      if id in t.Keys || exists n :: n in names && exists i :: Lists(t, i, n) then t' == t && r == Refused
      else
        && r == Done && t'.Keys == t.Keys + {id}
        && forall i, n :: Lists(t', i, n) <==> if i == id then n in names else Lists(t, i, n)
    case Delete(key) =>
      && (forall i :: StandsFor(t, key, i) ==> r == Done && t' == map j | j in t && j != i :: t[j])
      && ((forall i :: !StandsFor(t, key, i)) ==> t' == t && r == Refused)
  }

  lemma ApplyMeans(op: Op, t: Table)
    requires Exclusive(t)
    ensures OpMeans(op, t, Apply(op, t).0, Apply(op, t).1)
  {
    match op
    case Get(key) => LookupMeans(t, key);
    case Put(id, names) =>
      assert (exists n :: n in names && exists i :: Lists(t, i, n)) <==> exists i, n :: Lists(t, i, n) && n in names;
    case Delete(key) => LookupMeans(t, key);
  }

  type State = System<Table, Op, Answer>

  /** An unsaved Delete keeps the processes coherent exactly if it finds no layer to delete. */
  lemma DeleteKeepsIff(init: Table, s: State, p: Pid, key: string, s': State)
    requires Inv(Apply, init, s) && UnsavedChange(Apply, s, p, Delete(key), s')
    ensures Inv(Apply, init, s') <==> LookupIn(s.procs[p].cache, key) == None
  {
    var t := s.procs[p].cache;
    UnsavedKeepsIff(Apply, init, s, p, Delete(key), s');
    if LookupIn(t, key).Some? {
      assert LookupIn(t, key).value in t && LookupIn(t, key).value !in Apply(Delete(key), t).0;
    }
  }

  datatype Trail = Trail(start: State, deleted: State, left: State, locked: State, checked: State, put: State,
                         saved: State,
                         touched: State, unlocked: State, relocked: State, rechecked: State)

  /** Process `p` deletes a layer and unlocks; `q` locks, looks at the tag, puts a layer of its own,
      saves and unlocks; then `p` locks and looks at the tag again. */
  ghost predicate DeleteThenPut(r: Trail, p: Pid, q: Pid, key: string, id: Id, names: seq<Name>, tag: string) {
    && p != q
    && UnsavedChange(Apply, r.start, p, Delete(key), r.deleted)
    && Step(Apply, r.deleted, Event.Unlock(p), r.left)
    && Step(Apply, r.left, Event.Lock(q), r.locked)
    && Step(Apply, r.locked, Event.Check(q), r.checked)
    && Step(Apply, r.checked, Event.Change(q, Put(id, names)), r.put)
    && Step(Apply, r.put, Event.Save(q), r.saved)
    && Step(Apply, r.saved, Event.Touch(q, tag), r.touched)
    && Step(Apply, r.touched, Event.Unlock(q), r.unlocked)
    && Step(Apply, r.unlocked, Event.Lock(p), r.relocked)
    && Step(Apply, r.relocked, Event.Check(p), r.rechecked)
  }

  /** The layer that was deleted is then back in every such run: on disk, where it always was, and
      in the copy of the process that deleted it. */
  lemma DeletedLayerIsBack(init: Table, r: Trail, p: Pid, q: Pid, key: string, id: Id, names: seq<Name>, tag: string)
    requires DeleteThenPut(r, p, q, key, id, names, tag) && Inv(Apply, init, r.start)
    requires LookupIn(r.start.procs[p].cache, key).Some?
    ensures var deleted := LookupIn(r.start.procs[p].cache, key).value;
      && deleted !in r.deleted.procs[p].cache
      && deleted in r.rechecked.disk && deleted in r.rechecked.procs[p].cache
  {
    var deleted := LookupIn(r.start.procs[p].cache, key).value;
    DeleteIsUnseen(init, r.start, r.deleted, r.left, r.locked, r.checked, p, q, key);
    PutStays(r, p, q, id, names, tag, deleted);
    LooksAgain(r.unlocked, r.relocked, r.rechecked, p, tag);
  }

  lemma DeleteIsUnseen(init: Table, s0: State, s1: State, s2: State, s3: State, s4: State, p: Pid, q: Pid, key: string)
    requires Inv(Apply, init, s0) && p != q && UnsavedChange(Apply, s0, p, Delete(key), s1)
    requires Step(Apply, s1, Event.Unlock(p), s2) && Step(Apply, s2, Event.Lock(q), s3)
    requires Step(Apply, s3, Event.Check(q), s4)
    requires LookupIn(s0.procs[p].cache, key).Some?
    ensures var deleted := LookupIn(s0.procs[p].cache, key).value;
      deleted !in s1.procs[p].cache && q in s4.procs && deleted in s4.procs[q].cache
    ensures |s4.content| <= TAG_LENGTH && p in s4.procs && s4.procs[p].lw in s4.used && |s4.procs[p].lw| == TAG_LENGTH
  {
    UnsavedIsUnseen(Apply, init, s0, p, Delete(key), q, s1, s2, s3, s4);
    assert s0.disk == s0.procs[p].cache;
  }

  lemma LooksAgain(s8: State, s9: State, s10: State, p: Pid, tag: string)
    requires Step(Apply, s8, Event.Lock(p), s9) && Step(Apply, s9, Event.Check(p), s10)
    requires s8.content == tag && s8.procs[p].lw != tag && |s8.procs[p].lw| == |tag|
    ensures p in s10.procs && s10.procs[p].cache == s8.disk && s10.disk == s8.disk
  {
    assert tag[..|s8.procs[p].lw|] == tag;
  }

  lemma PutStays(r: Trail, p: Pid, q: Pid, id: Id, names: seq<Name>, tag: string, layer: Id)
    requires p != q && p in r.checked.procs
    requires Step(Apply, r.checked, Event.Change(q, Put(id, names)), r.put)
    requires Step(Apply, r.put, Event.Save(q), r.saved)
    requires Step(Apply, r.saved, Event.Touch(q, tag), r.touched)
    requires Step(Apply, r.touched, Event.Unlock(q), r.unlocked)
    requires layer in r.checked.procs[q].cache && |r.checked.content| <= TAG_LENGTH
    ensures layer in r.unlocked.disk && r.unlocked.content == tag && tag !in r.checked.used && |tag| == TAG_LENGTH
    ensures p in r.unlocked.procs && r.unlocked.procs[p] == r.checked.procs[p]
  {
    assert layer in r.put.procs[q].cache;
    assert r.saved.content == r.checked.content && r.saved.used == r.checked.used;
    assert Stamped(r.saved.content, tag, |tag|) == tag;
  }

  // ---- Such a run ----

  function Tag(c: char): string {
    seq(TAG_LENGTH, _ => c)
  }

  type Proc = Process<Table, Op, Answer>

  function Before(): Table {
    map["a" := []]
  }

  function After(): Table {
    map["a" := [], "b" := []]
  }

  function At(p: Proc, q: Proc, content: string, disk: Table, holder: Option<Pid>, used: set<string>,
              log: seq<(Op, Answer)>): State {
    System(map[0 := p, 1 := q], content, disk, holder, used, log)
  }

  lemma Answers()
    ensures Apply(Delete("a"), Before()) == (map[], Answer.Done)
    ensures Apply(Put("b", []), Before()) == (After(), Answer.Done)
  {
    assert forall n: Name :: n !in [];
    assert Dedupe([]) == [];
  }

  function Used(): set<string> {
    {Tag('x'), Tag('y')}
  }

  function Logged(): seq<(Op, Answer)> {
    [(Put("b", []), Answer.Done)]
  }

  function First(phase: Phase<Op, Answer>): Proc {
    Process(Tag('x'), map[], phase)
  }

  function Second(phase: Phase<Op, Answer>): Proc {
    Process(Tag('z'), After(), phase)
  }

  predicate AtFour(s: State) {
    s == At(First(Idle), Process(Tag('y'), Before(), Ready), "", Before(), Some(1), Used(), [])
  }

  predicate AtEight(s: State) {
    s == At(First(Idle), Second(Idle), Tag('z'), After(), None, Used() + {Tag('z')}, Logged())
  }

  /** The layer is deleted, and the other process looks. */
  lemma RunBegins() returns (s0: State, s1: State, s2: State, s3: State, s4: State)
    ensures Inv(Apply, Before(), s0) && UnsavedChange(Apply, s0, 0, Delete("a"), s1)
    ensures Step(Apply, s1, Event.Unlock(0), s2)
    ensures Step(Apply, s2, Event.Lock(1), s3) && Step(Apply, s3, Event.Check(1), s4) && AtFour(s4)
    ensures 0 in s1.procs && "a" !in s1.procs[0].cache
  {
    s0, s1 := RunStarts();
    s2 := At(First(Idle), Process(Tag('y'), Before(), Idle), "", Before(), None, Used(), []);
    s3 := At(First(Idle), Process(Tag('y'), Before(), Locked), "", Before(), Some(1), Used(), []);
    s4 := At(First(Idle), Process(Tag('y'), Before(), Ready), "", Before(), Some(1), Used(), []);
  }

  lemma RunStarts() returns (s0: State, s1: State)
    ensures Inv(Apply, Before(), s0) && UnsavedChange(Apply, s0, 0, Delete("a"), s1)
    ensures s1 == At(Process(Tag('x'), map[], Ready), Process(Tag('y'), Before(), Idle), "", Before(), Some(0),
      Used(), [])
  {
    Answers();
    s0 := At(Process(Tag('x'), Before(), Ready), Process(Tag('y'), Before(), Idle), "", Before(), Some(0), Used(), []);
    s1 := At(Process(Tag('x'), map[], Ready), Process(Tag('y'), Before(), Idle), "", Before(), Some(0), Used(), []);
  }

  /** The other process puts its layer, saves and leaves. */
  lemma RunGoesOn(s4: State) returns (s5: State, s6: State, s7: State, s8: State)
    requires AtFour(s4)
    ensures Step(Apply, s4, Event.Change(1, Put("b", [])), s5) && Step(Apply, s5, Event.Save(1), s6)
    ensures Step(Apply, s6, Event.Touch(1, Tag('z')), s7) && Step(Apply, s7, Event.Unlock(1), s8) && AtEight(s8)
  {
    Answers();
    assert Tag('x')[0] == 'x' && Tag('y')[0] == 'y' && Tag('z')[0] == 'z';
    assert Stamped("", Tag('z'), TAG_LENGTH) == Tag('z');
    s5 := At(First(Idle), Process(Tag('y'), After(), Phase.Changed(Put("b", []), Answer.Done)), "", Before(), Some(1),
      Used(), []);
    s6 := At(First(Idle), Process(Tag('y'), After(), Saved), "", After(), Some(1), Used(), Logged());
    s7 := At(First(Idle), Second(Ready), Tag('z'), After(), Some(1), Used() + {Tag('z')}, Logged());
    s8 := At(First(Idle), Second(Idle), Tag('z'), After(), None, Used() + {Tag('z')}, Logged());
  }

  /** The first one looks again. */
  lemma RunEnds(s8: State) returns (s9: State, s10: State)
    requires AtEight(s8)
    ensures Step(Apply, s8, Event.Lock(0), s9) && Step(Apply, s9, Event.Check(0), s10)
    ensures 0 in s10.procs && s10.procs[0].cache == After()
  {
    assert Tag('x')[0] == 'x' && Tag('z')[0] == 'z';
    assert Tag('z')[..|Tag('x')|] == Tag('z');
    s9 := At(First(Locked), Second(Idle), Tag('z'), After(), Some(0), Used() + {Tag('z')}, Logged());
    s10 := At(Second(Ready), Second(Idle), Tag('z'), After(), Some(0), Used() + {Tag('z')}, Logged());
  }

  /** There is such a run: the store has the layer "a", process 0 deletes it, process 1 puts "b". */
  lemma DeletedLayerRun() returns (r: Trail)
    ensures DeleteThenPut(r, 0, 1, "a", "b", [], Tag('z')) && Inv(Apply, Before(), r.start)
    ensures "a" !in r.deleted.procs[0].cache && r.rechecked.procs[0].cache == After()
  {
    var s0, s1, s2, s3, s4 := RunBegins();
    var s5, s6, s7, s8 := RunGoesOn(s4);
    var s9, s10 := RunEnds(s8);
    r := Trail(s0, s1, s2, s3, s4, s5, s6, s7, s8, s9, s10);
  }
}
