/** Whole runs of operations on image names, with restarts in between. */
module NameRuns {
  import opened Names
  import opened Slices
  import opened Options

  /** The operations in daemon mode, with every write working. Narrowing is SetNames to some of the
      image's own names, which is the only way removing a reference calls it. */
  datatype Update =
    | Create(id: Id, names: seq<Name>)
    | Add(id: Id, name: Name)
    | Narrow(id: Id, names: seq<Name>)
    | Delete(id: Id)

  /** An operation comes through; or the daemon is started again and reads the record files in some
      order, either after an operation or after the power was cut when `n` of its writes were made. */
  datatype Event = Done(u: Update) | Restart(records: seq<Record>) | Cut(u: Update, n: nat, records: seq<Record>)

  ghost predicate Possible(s: NameState, u: Update) {
    match u
    case Create(id, names) => id !in s.listed && forall n :: n in names ==> n !in s.owners
    case Add(id, _) => id in s.listed
    case Narrow(id, names) => id in s.listed && forall n :: n in names ==> n in s.listed[id]
    case Delete(id) => id in s.listed
  }

  /** What ImageStore's methods do. */
  ghost function Updated(s: NameState, u: Update): NameState
    requires Possible(s, u)
  {
    match u
    case Create(id, names) => CreatedIn(s, id, Dedupe(names))
    case Add(id, name) => AddedIn(s, id, name)
    case Narrow(id, names) => SetIn(s, id, Dedupe(names))
    case Delete(id) => DeletedIn(s, id)
  }

  /** The record files when `n` of the operation's writes were made. */
  ghost function DiskAt(s: NameState, u: Update, n: nat): Table
    requires Possible(s, u) && |s.writes| + n <= |Updated(s, u).writes|
  {
    if n == 0 then s.disk else Updated(s, u).writes[|s.writes| + n - 1]
  }

  /** What a start reads from the record files. */
  ghost function Started(disk: Table, writes: seq<Table>, records: seq<Record>): NameState {
    NameState(Loaded(records, |records|), LoadedIndex(records, |records|), disk, writes)
  }

  ghost predicate Step(s: NameState, e: Event, s': NameState) {
    match e
    case Done(u) => Possible(s, u) && s' == Updated(s, u)
    case Restart(records) => Listing(records, s.disk) && s' == Started(s.disk, s.writes, records)
    case Cut(u, n, records) =>
      && Possible(s, u) && |s.writes| + n <= |Updated(s, u).writes| && Listing(records, DiskAt(s, u, n))
      && s' == Started(DiskAt(s, u, n), Updated(s, u).writes[..|s.writes| + n], records)
  }

  /** The power may be cut after any number of an operation's writes, none and all included. */
  lemma CutAnywhere(s: NameState, u: Update, n: nat, records: seq<Record>)
    requires Possible(s, u) && |s.writes| + n <= |Updated(s, u).writes| && Listing(records, DiskAt(s, u, n))
    ensures var s' := Started(DiskAt(s, u, n), Updated(s, u).writes[..|s.writes| + n], records);
      Step(s, Cut(u, n, records), s') && s'.disk == if n == 0 then s.disk else Updated(s, u).writes[|s.writes| + n - 1]
  {
  }

  /** The index is exact, the record files say what memory says, and no write so far ever left a
      name in two records. */
  ghost predicate Durable(s: NameState) {
    && Inverse(s.owners, s.listed) && s.disk == s.listed
    && forall k :: 0 <= k < |s.writes| ==> Exclusive(s.writes[k])
  }

  lemma NarrowKeepsDurable(s: NameState, id: Id, names: seq<Name>)
    requires Durable(s) && id in s.listed && NoRepeat(names) && forall n :: n in names ==> n in s.listed[id]
    ensures Durable(SetIn(s, id, names))
  {
    InverseExclusive(s.owners, s.listed);
    RenamedInverse(s.owners, s.listed, id, names);
    SetNamesSubset(s.listed, id, names);
  }

  lemma AddKeepsDurable(s: NameState, id: Id, name: Name)
    requires Durable(s) && id in s.listed
    ensures Durable(AddedIn(s, id, name)) && s.writes <= AddedIn(s, id, name).writes
  {
    AddNameDone(s, id, name);
    AddWritesAre(s, id, name);
    var writes := AddedIn(s, id, name).writes;
    forall k | 0 <= k < |writes|
      ensures Exclusive(writes[k])
    {
    }
  }

  lemma UpdateKeepsDurable(s: NameState, u: Update)
    requires Durable(s) && Possible(s, u)
    ensures Durable(Updated(s, u)) && s.writes <= Updated(s, u).writes
  {
    var s' := Updated(s, u);
    match u
    case Create(id, names) =>
      CreatedInverse(s.owners, s.listed, id, Dedupe(names));
      InverseExclusive(s'.owners, s'.listed);
    case Add(id, name) => AddKeepsDurable(s, id, name);
    case Narrow(id, names) =>
      NarrowKeepsDurable(s, id, Dedupe(names));
    case Delete(id) =>
      DeletedInverse(s.owners, s.listed, id);
      InverseExclusive(s'.owners, s'.listed);
  }

  /** Reading record files in which no name is twice, in whatever order, gives just what they say. */
  lemma StartIsDurable(disk: Table, writes: seq<Table>, records: seq<Record>)
    requires Exclusive(disk) && Listing(records, disk) && forall k :: 0 <= k < |writes| ==> Exclusive(writes[k])
    ensures Durable(Started(disk, writes, records)) && Started(disk, writes, records).listed == disk
  {
    LoadGivesBack(records, disk);
    LoadedInverse(records, |records|);
  }

  lemma StepKeepsDurable(s: NameState, e: Event, s': NameState)
    requires Durable(s) && Step(s, e, s')
    ensures Durable(s')
  {
    InverseExclusive(s.owners, s.listed);
    match e
    case Done(u) => UpdateKeepsDurable(s, u);
    case Restart(records) => StartIsDurable(s.disk, s.writes, records);
    case Cut(u, n, records) =>
      UpdateKeepsDurable(s, u);
      StartIsDurable(DiskAt(s, u, n), Updated(s, u).writes[..|s.writes| + n], records);
  }

  /** A restart between operations changes nothing, in whatever order the record files are read. */
  lemma RestartIsIdentity(s: NameState, records: seq<Record>)
    requires Durable(s) && Listing(records, s.disk)
    ensures Started(s.disk, s.writes, records) == s
  {
    InverseExclusive(s.owners, s.listed);
    StartIsDurable(s.disk, s.writes, records);
    InverseUnique(s.owners, LoadedIndex(records, |records|), s.listed);
  }

  /** A run from the empty store. */
  ghost predicate Run(states: seq<NameState>, events: seq<Event>) {
    && |states| == |events| + 1
    && states[0] == NameState(map[], map[], map[], [])
    && forall i :: 0 <= i < |events| ==> Step(states[i], events[i], states[i + 1])
  }

  /** In every state of every run, with restarts and power cuts anywhere, the index is the exact
      inverse of the lists, the record files say what memory says, no write ever left a name in two
      records, and a restart at that point would change nothing. */
  lemma {:induction false} RunsKeepNames(states: seq<NameState>, events: seq<Event>, i: nat)
    requires Run(states, events) && i < |states|
    ensures Durable(states[i])
    ensures forall records :: Listing(records, states[i].disk) ==>
      Started(states[i].disk, states[i].writes, records) == states[i]
  {
    if i > 0 {
      RunsKeepNames(states, events, i - 1);
      StepKeepsDurable(states[i - 1], events[i - 1], states[i]);
    }
    forall records | Listing(records, states[i].disk) {
      RestartIsIdentity(states[i], records);
    }
  }

  /** The power is cut in an AddName, anywhere: after the restart every other name is where it was,
      and this one is where it was, or nowhere, or where it is to go. */
  lemma CutAddMovesOneName(s: NameState, id: Id, name: Name, n: nat, records: seq<Record>, s': NameState)
    requires Durable(s) && Step(s, Cut(Add(id, name), n, records), s')
    ensures MovesOnly(s.listed, s'.listed, id, name)
  {
    CutIsStart(s, Add(id, name), n, records, s');
    CutDisk(s, id, name, n);
    InverseExclusive(s.owners, s.listed);
    StrippedLists(s.listed, s.owners, id, name);
    AddedLists(s.listed, id, name);
  }

  lemma CutIsStart(s: NameState, u: Update, n: nat, records: seq<Record>, s': NameState)
    requires Durable(s) && Step(s, Cut(u, n, records), s')
    ensures s'.listed == DiskAt(s, u, n)
  {
    InverseExclusive(s.owners, s.listed);
    UpdateKeepsDurable(s, u);
    StartIsDurable(DiskAt(s, u, n), s'.writes, records);
  }

  lemma CutDisk(s: NameState, id: Id, name: Name, n: nat)
    requires Durable(s) && id in s.listed && |s.writes| + n <= |AddedIn(s, id, name).writes|
    ensures DiskAt(s, Add(id, name), n) in [s.listed, Stripped(s.listed, s.owners, name), AddedName(s.listed, id, name)]
  {
    AddWritesAre(s, id, name);
  }

  /** No other name has moved, and this one is with nobody it was not with but `id`. */
  ghost predicate MovesOnly(t: Table, t': Table, id: Id, name: Name) {
    && (forall i, m :: m != name ==> (Lists(t', i, m) <==> Lists(t, i, m)))
    && forall i :: Lists(t', i, name) ==> i == id || Lists(t, i, name)
  }

  lemma AddedLists(t: Table, id: Id, name: Name)
    requires Exclusive(t) && id in t
    ensures MovesOnly(t, AddedName(t, id, name), id, name)
  {
    var t' := AddedName(t, id, name);
    AddNameMoves(t, id, name);
    forall i | Lists(t', i, name)
      ensures i == id
    {
      assert Lists(t', id, name);
    }
  }

  lemma StrippedLists(t: Table, owners: map<Name, Id>, id: Id, name: Name)
    ensures MovesOnly(t, Stripped(t, owners, name), id, name)
  {
    if name in owners && owners[name] in t {
      WithoutFacts(t[owners[name]], name);
    }
  }

  /** Two records that list the same name: the later one read gets it. */
  lemma Contested(first: Id, second: Id, n: Name)
    requires first != second
    ensures var records := [Record(first, [n]), Record(second, [n])];
      && Listing(records, map[first := [n], second := [n]])
      && Lists(Loaded(records, 2), second, n) && !Lists(Loaded(records, 2), first, n)
  {
    var records := [Record(first, [n]), Record(second, [n])];
    assert [n][0] == n;
    assert records[0].id == first && records[1].id == second;
    LastRecordWins(records, 2, 0, n);
    LastRecordWins(records, 2, 1, n);
  }

  /** With a SetNames that takes a name from another image this is no longer so: the record of
      the loser keeps the name, and the order of the directory decides who owns it. */
  lemma StolenNameComesBack(a: Id, b: Id, n: Name)
    requires a != b
    ensures var disk: Table := map[a := [n], b := []];
      var stolen: Table := map[a := [n], b := [n]];
      var one, other := [Record(a, [n]), Record(b, [n])], [Record(b, [n]), Record(a, [n])];
      && Exclusive(disk) && SetIn(NameState(disk, map[n := a], disk, []), b, [n]).disk == stolen && !Exclusive(stolen)
      && Listing(one, stolen) && Lists(Loaded(one, 2), b, n) && !Lists(Loaded(one, 2), a, n)
      && Listing(other, stolen) && Lists(Loaded(other, 2), a, n) && !Lists(Loaded(other, 2), b, n)
  {
    var stolen: Table := map[a := [n], b := [n]];
    assert stolen == map[b := [n], a := [n]];
    TwiceIsNotExclusive(stolen, a, b, n);
    Contested(a, b, n);
    Contested(b, a, n);
  }

  lemma TwiceIsNotExclusive(t: Table, i: Id, j: Id, n: Name)
    requires i != j && i in t && j in t && t[i] == [n] && t[j] == [n]
    ensures !Exclusive(t)
  {
    assert [n][0] == n;
    assert Lists(t, i, n) && Lists(t, j, n);
  }
}
