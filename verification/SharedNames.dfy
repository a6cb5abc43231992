/** Image names outside daemon mode: every process saves the whole table under the lock. */
module SharedNames {
  import opened Coherence
  import opened Names
  import opened Options
  import opened Slices

  datatype Op =
    | Get(key: string)
    | Create(id: Id, names: seq<Name>)
    | AddName(key: string, name: Name)
    | SetNames(key: string, names: seq<Name>)
    | Delete(key: string)

  datatype Answer = Refused | Listed(names: seq<Name>) | Done

  /** The image store's operations on the table of names; a key is an ID or a name. */
  ghost function Apply(op: Op, t: Table): (Table, Answer) {
    match op
    case Create(id, names) =>
      if id in t || exists i, n :: Lists(t, i, n) && n in names then (t, Refused) else (t[id := Dedupe(names)], Done)
    case _ =>
      var id := LookupIn(t, op.key);
      if id.None? then (t, Refused) else ApplyTo(op, t, id.value)
  }

  ghost function ApplyTo(op: Op, t: Table, id: Id): (Table, Answer)
    requires !op.Create? && id in t
  {
    match op
    case Get(_) => (t, Listed(t[id]))
    case AddName(_, name) => (AddedName(t, id, name), Done)
    case SetNames(_, names) => (Renamed(t, id, Dedupe(names)), Done)
    case Delete(_) => (t - {id}, Done)
  }

  /** What each operation answers, and what it leaves, in terms of IDs and names alone. */
  ghost predicate OpMeans(op: Op, t: Table, t': Table, r: Answer) {
    match op
    case Create(id, names) =>
      if id in t.Keys || exists n :: n in names && exists i :: Lists(t, i, n) then t' == t && r == Refused
      else
        && r == Done && t'.Keys == t.Keys + {id}
        && forall i, n :: Lists(t', i, n) <==> if i == id then n in names else Lists(t, i, n)
    case _ =>
      && ((forall i :: !StandsFor(t, op.key, i)) ==> t' == t && r == Refused)
      && forall i :: StandsFor(t, op.key, i) ==> OpToMeans(op, t, t', r, i)
  }

  ghost predicate OpToMeans(op: Op, t: Table, t': Table, r: Answer, id: Id)
    requires !op.Create? && id in t
  {
    match op
    case Get(_) => t' == t && r == Listed(t[id])
    case AddName(_, name) =>
      && r == Done && t'.Keys == t.Keys
      && forall i, n :: Lists(t', i, n) <==> if n == name then i == id else Lists(t, i, n)
    case SetNames(_, names) =>
      && r == Done && t'.Keys == t.Keys
      && forall i, n :: Lists(t', i, n) <==> if n in names then i == id else i != id && Lists(t, i, n)
    case Delete(_) => r == Done && t' == map i | i in t && i != id :: t[i]
  }

  lemma ApplyMeans(op: Op, t: Table)
    requires Exclusive(t)
    ensures OpMeans(op, t, Apply(op, t).0, Apply(op, t).1)
  {
    match op
    case Create(id, names) =>
      assert (exists n :: n in names && exists i :: Lists(t, i, n)) <==> exists i, n :: Lists(t, i, n) && n in names;
    case _ =>
      LookupMeans(t, op.key);
      forall i | StandsFor(t, op.key, i)
        ensures OpToMeans(op, t, Apply(op, t).0, Apply(op, t).1, i)
      {
        ApplyToMeans(op, t, i);
      }
  }

  lemma ApplyToMeans(op: Op, t: Table, id: Id)
    requires Exclusive(t) && !op.Create? && id in t
    ensures OpToMeans(op, t, ApplyTo(op, t, id).0, ApplyTo(op, t, id).1, id)
  {
    match op
    case Get(_) =>
    case AddName(_, name) =>
      AddNameMoves(t, id, name);
      forall i, n
        ensures Lists(AddedName(t, id, name), i, n) <==> if n == name then i == id else Lists(t, i, n)
      {
        assert Lists(AddedName(t, id, name), id, name);
      }
    case SetNames(_, names) =>
      forall i, n
        ensures Lists(Renamed(t, id, Dedupe(names)), i, n) <==>
          if n in names then i == id else i != id && Lists(t, i, n)
      {
        RenamedLists(t, id, Dedupe(names), i, n);
      }
    case Delete(_) =>
  }

  lemma RenamedExclusive(t: Table, id: Id, names: seq<Name>)
    requires Exclusive(t) && id in t && NoRepeat(names)
    ensures Exclusive(Renamed(t, id, names))
  {
    RenamedNoRepeats(t, id, names);
    forall i, j, n | Lists(Renamed(t, id, names), i, n) && Lists(Renamed(t, id, names), j, n)
      ensures i == j
    {
      RenamedLists(t, id, names, i, n);
      RenamedLists(t, id, names, j, n);
    }
  }

  lemma ApplyExclusive(op: Op, t: Table)
    requires Exclusive(t)
    ensures Exclusive(Apply(op, t).0)
  {
    if op.Create? {
      CreateExclusive(op.id, op.names, t);
    } else if LookupIn(t, op.key).Some? {
      ApplyToExclusive(op, t, LookupIn(t, op.key).value);
    }
  }

  lemma CreateExclusive(id: Id, names: seq<Name>, t: Table)
    requires Exclusive(t)
    ensures Exclusive(Apply(Create(id, names), t).0)
  {
    if Apply(Create(id, names), t).1 == Done {
      var t' := t[id := Dedupe(names)];
      forall i, j, n | Lists(t', i, n) && Lists(t', j, n)
        ensures i == j
      {
        assert i != id ==> Lists(t, i, n);
        assert j != id ==> Lists(t, j, n);
      }
    }
  }

  lemma ApplyToExclusive(op: Op, t: Table, id: Id)
    requires Exclusive(t) && !op.Create? && id in t
    ensures Exclusive(ApplyTo(op, t, id).0)
  {
    match op
    case Get(_) =>
    case AddName(_, name) => RenamedExclusive(t, id, Dedupe(t[id] + [name]));
    case SetNames(_, names) => RenamedExclusive(t, id, Dedupe(names));
    case Delete(_) => assert forall i, n :: Lists(t - {id}, i, n) ==> Lists(t, i, n);
  }

  lemma {:induction false} ReplayExclusive(log: seq<(Op, Answer)>)
    ensures Exclusive(Replay(Apply, map[], log))
  {
    if log != [] {
      ReplayExclusive(log[..|log| - 1]);
      ApplyExclusive(log[|log| - 1].0, Replay(Apply, map[], log[..|log| - 1]));
    }
  }

  /** In every run of any number of processes: names are exclusive on disk and in the copy of
      every process that is past its look at the tag, and loading the saved records, in whatever
      order they were saved, gives the table that was saved. */
  lemma NamesAcrossProcesses(states: seq<System<Table, Op, Answer>>, events: seq<Event<Op>>, i: nat, p: Pid,
                             records: seq<Record>)
    requires Run(Apply, map[], states, events) && i < |states|
    ensures Exclusive(states[i].disk)
    ensures p in states[i].procs && states[i].procs[p].phase == Ready ==> Exclusive(states[i].procs[p].cache)
    ensures Listing(records, states[i].disk) ==> Loaded(records, |records|) == states[i].disk
  {
    RunsAreSequential(Apply, map[], states, events, i);
    ReplayExclusive(states[i].log);
    if Listing(records, states[i].disk) {
      LoadGivesBack(records, states[i].disk);
    }
  }
}
