/** Several processes, each with its own copy of one store on disk, kept coherent by the lock
    file: lock, reload if the file was modified, operate, save and touch, unlock. */
module Coherence {
  import opened FileLocker
  import opened Options

  type Pid = nat

  datatype Phase<O, R> =
    | Idle
    | Locked                         // has the lock, has not looked at the tag yet
    | Ready                          // past the look at the tag
    | Changed(op: O, result: R)      // has changed its copy
    | Saved                          // has written its copy, has not left a new tag yet

  datatype Process<D, O, R> = Process(lw: string, cache: D, phase: Phase<O, R>)

  /** `used` has every tag ever drawn, `log` the operations in the order they took effect, with
      what they answered. */
  datatype System<D, O, R> = System(procs: map<Pid, Process<D, O, R>>, content: string, disk: D, holder: Option<Pid>,
                                    used: set<string>, log: seq<(O, R)>)

  datatype Event<O> =
    | Start(p: Pid, tag: string)     // a new process takes the lock and loads
    | Lock(p: Pid)
    | Check(p: Pid)                  // Modified, and Load if so
    | Query(p: Pid, op: O)           // an operation that changes nothing
    | Change(p: Pid, op: O)
    | Save(p: Pid)
    | Touch(p: Pid, tag: string)
    | Unlock(p: Pid)
    | Die(p: Pid)                    // a process ends; the system frees its lock

  ghost predicate Fresh<D, O, R>(s: System<D, O, R>, tag: string) {
    |tag| == TAG_LENGTH && tag !in s.used
  }

  function With<D, O, R>(s: System<D, O, R>, p: Pid, proc: Process<D, O, R>): System<D, O, R> {
    s.(procs := s.procs[p := proc])
  }

  ghost predicate Step<D(!new), O(!new), R(!new)>(apply: (O, D) -> (D, R), s: System<D, O, R>, e: Event<O>,
                                                  s': System<D, O, R>) {
    match e
    case Start(p, tag) =>
      && p !in s.procs && s.holder.None? && Fresh(s, tag)
      && s' == With(s, p, Process(tag, s.disk, Ready)).(holder := Some(p), used := s.used + {tag})
    case Lock(p) =>
      && p in s.procs && s.holder.None?
      && s' == With(s, p, s.procs[p].(phase := Locked)).(holder := Some(p))
    case Check(p) =>
      && p in s.procs && s.procs[p].phase == Locked
      && var (modified, lw) := Seen(s.procs[p].lw, s.content);
         s' == With(s, p, Process(lw, if modified then s.disk else s.procs[p].cache, Ready))
    case Query(p, op) =>
      && p in s.procs && s.procs[p].phase == Ready
      && var (d, r) := apply(op, s.procs[p].cache);
         d == s.procs[p].cache && s' == s.(log := s.log + [(op, r)])
    case Change(p, op) =>
      && p in s.procs && s.procs[p].phase == Ready
      && var (d, r) := apply(op, s.procs[p].cache);
         s' == With(s, p, Process(s.procs[p].lw, d, Phase.Changed(op, r)))
    case Save(p) =>
      && p in s.procs && s.procs[p].phase.Changed?
      && s' == With(s, p, s.procs[p].(phase := Saved)).(disk := s.procs[p].cache,
                                                        log := s.log + [(s.procs[p].phase.op, s.procs[p].phase.result)])
    case Touch(p, tag) =>
      && p in s.procs && s.procs[p].phase == Saved && Fresh(s, tag)
      && s' == With(s, p, s.procs[p].(lw := tag, phase := Ready)).(content := Stamped(s.content, tag, |tag|),
                                                                   used := s.used + {tag})
    case Unlock(p) =>
      && p in s.procs && s.procs[p].phase == Ready
      && s' == With(s, p, s.procs[p].(phase := Idle)).(holder := None)
    case Die(p) =>
      && p in s.procs && s.procs[p].phase != Saved
      && s' == s.(procs := s.procs - {p}, holder := if s.holder == Some(p) then None else s.holder)
  }

  // ---- One shared store, operated on in turn ----

  ghost function Replay<D(!new), O(!new), R(!new)>(apply: (O, D) -> (D, R), init: D, log: seq<(O, R)>): D {
    if log == [] then init else apply(log[|log| - 1].0, Replay(apply, init, log[..|log| - 1])).0
  }

  /** Every answer in the log is the one the shared store gives at that point. */
  ghost predicate Faithful<D(!new), O(!new), R(!new)>(apply: (O, D) -> (D, R), init: D, log: seq<(O, R)>) {
    forall i :: 0 <= i < |log| ==> log[i].1 == apply(log[i].0, Replay(apply, init, log[..i])).1
  }

  lemma LogStep<D(!new), O(!new), R(!new)>(apply: (O, D) -> (D, R), init: D, log: seq<(O, R)>, op: O)
    requires Faithful(apply, init, log)
    ensures var (d, r) := apply(op, Replay(apply, init, log));
      Faithful(apply, init, log + [(op, r)]) && Replay(apply, init, log + [(op, r)]) == d
  {
    var (d, r) := apply(op, Replay(apply, init, log));
    var log' := log + [(op, r)];
    assert log'[..|log|] == log;
    forall i | 0 <= i < |log'|
      ensures log'[i].1 == apply(log'[i].0, Replay(apply, init, log'[..i])).1
    {
      if i < |log| {
        assert log'[..i] == log[..i];
      }
    }
  }

  // ---- The invariant ----

  /** Only the holder is out of Idle. */
  ghost predicate OneHolder<D(!new), O(!new), R(!new)>(s: System<D, O, R>) {
    && (s.holder.Some? ==> s.holder.value in s.procs && s.procs[s.holder.value].phase != Idle)
    && forall p :: p in s.procs && s.holder != Some(p) ==> s.procs[p].phase == Idle
  }

  ghost predicate Tagged<D(!new), O(!new), R(!new)>(s: System<D, O, R>) {
    && (s.content == "" || (|s.content| == TAG_LENGTH && s.content in s.used))
    && forall p :: p in s.procs ==> |s.procs[p].lw| == TAG_LENGTH && s.procs[p].lw in s.used
  }

  /** Nobody has written without having left a tag. */
  ghost predicate Settled<D(!new), O(!new), R(!new)>(s: System<D, O, R>) {
    forall p :: p in s.procs ==> s.procs[p].phase != Saved
  }

  /** Whoever remembers the tag in the file has what is on disk. */
  ghost predicate Coherent<D(!new), O(!new), R(!new)>(s: System<D, O, R>) {
    Settled(s) ==>
      forall p :: p in s.procs && !s.procs[p].phase.Changed? && s.procs[p].lw == s.content ==>
        s.procs[p].cache == s.disk
  }

  /** Past its look at the tag, a process has what is on disk, or that with its own change. */
  ghost predicate UpToDate<D(!new), O(!new), R(!new)>(apply: (O, D) -> (D, R), s: System<D, O, R>) {
    forall p :: p in s.procs ==>
      match s.procs[p].phase
      case Ready => s.procs[p].cache == s.disk
      case Saved => s.procs[p].cache == s.disk
      case Changed(op, r) => apply(op, s.disk) == (s.procs[p].cache, r)
      case _ => true
  }

  ghost predicate Inv<D(!new), O(!new), R(!new)>(apply: (O, D) -> (D, R), init: D, s: System<D, O, R>) {
    && OneHolder(s) && Tagged(s) && Coherent(s) && UpToDate(apply, s)
    && s.disk == Replay(apply, init, s.log) && Faithful(apply, init, s.log)
  }

  /** The two steps that give a process the disk as its copy. */
  lemma LoadingKeeps<D(!new), O(!new), R(!new)>(apply: (O, D) -> (D, R), init: D, s: System<D, O, R>, e: Event<O>,
      s': System<D, O, R>)
    requires Inv(apply, init, s) && Step(apply, s, e, s') && (e.Start? || e.Check?)
    ensures Inv(apply, init, s')
  {
    if e.Check? {
      var lw := s.procs[e.p].lw;
      assert |s.content| >= |lw| ==> s.content[..|lw|] == s.content;
    }
  }

  /** The two steps that write the disk and the tag. */
  lemma WritingKeeps<D(!new), O(!new), R(!new)>(apply: (O, D) -> (D, R), init: D, s: System<D, O, R>, e: Event<O>,
      s': System<D, O, R>)
    requires Inv(apply, init, s) && Step(apply, s, e, s') && (e.Save? || e.Touch?)
    ensures Inv(apply, init, s')
  {
    if e.Save? {
      LogStep(apply, init, s.log, s.procs[e.p].phase.op);
    } else {
      assert Stamped(s.content, e.tag, |e.tag|) == e.tag;
    }
  }

  lemma OperatingKeeps<D(!new), O(!new), R(!new)>(apply: (O, D) -> (D, R), init: D, s: System<D, O, R>, e: Event<O>,
      s': System<D, O, R>)
    requires Inv(apply, init, s) && Step(apply, s, e, s') && (e.Query? || e.Change?)
    ensures Inv(apply, init, s')
  {
    if e.Query? {
      LogStep(apply, init, s.log, e.op);
    }
  }

  lemma InvStep<D(!new), O(!new), R(!new)>(apply: (O, D) -> (D, R), init: D, s: System<D, O, R>, e: Event<O>,
      s': System<D, O, R>)
    requires Inv(apply, init, s) && Step(apply, s, e, s')
    ensures Inv(apply, init, s')
  {
    match e
    case Start(_, _) => LoadingKeeps(apply, init, s, e, s');
    case Check(_) => LoadingKeeps(apply, init, s, e, s');
    case Save(_) => WritingKeeps(apply, init, s, e, s');
    case Touch(_, _) => WritingKeeps(apply, init, s, e, s');
    case Query(_, _) => OperatingKeeps(apply, init, s, e, s');
    case Change(_, _) => OperatingKeeps(apply, init, s, e, s');
    case Lock(_) =>
    case Unlock(_) =>
    case Die(_) =>
  }

  ghost predicate Init<D(!new), O(!new), R(!new)>(s: System<D, O, R>, init: D) {
    s == System(map[], "", init, None, {}, [])
  }

  ghost predicate Run<D(!new), O(!new), R(!new)>(apply: (O, D) -> (D, R), init: D, states: seq<System<D, O, R>>,
      events: seq<Event<O>>)
  {
    && |states| == |events| + 1 && Init(states[0], init)
    && forall i :: 0 <= i < |events| ==> Step(apply, states[i], events[i], states[i + 1])
  }

  /** Any number of processes, interleaved in any way, answer and write as one shared store would
      that takes their operations in the order of the log; and a process past its look at the tag
      works on what is on disk. */
  lemma {:induction false} RunsAreSequential<D(!new), O(!new), R(!new)>(apply: (O, D) -> (D, R), init: D,
      states: seq<System<D, O, R>>, events: seq<Event<O>>, i: nat)
    requires Run(apply, init, states, events) && i < |states|
    ensures Inv(apply, init, states[i])
    ensures states[i].disk == Replay(apply, init, states[i].log) && Faithful(apply, init, states[i].log)
    ensures forall p :: p in states[i].procs && states[i].procs[p].phase == Ready ==>
      states[i].procs[p].cache == states[i].disk
  {
    if i > 0 {
      RunsAreSequential(apply, init, states, events, i - 1);
      InvStep(apply, init, states[i - 1], events[i - 1], states[i]);
    }
  }

  /** There are such runs: whatever the operation, process 0 does it, and process 1 that starts then
      has what it left. */
  lemma SomeRun<D(!new), O(!new), R(!new)>(apply: (O, D) -> (D, R), init: D, op: O, a: string, b: string, c: string)
      returns (states: seq<System<D, O, R>>, events: seq<Event<O>>)
    requires |a| == |b| == |c| == TAG_LENGTH && a != b && a != c && b != c
    ensures Run(apply, init, states, events)
    ensures var last := states[|states| - 1];
      && last.log == [(op, apply(op, init).1)] && last.disk == apply(op, init).0
      && 1 in last.procs && last.procs[1].cache == apply(op, init).0
  {
    events := [Start(0, a), Change(0, op), Save(0), Touch(0, b), Unlock(0), Start(1, c)];
    states := [];
    for k := 0 to 7
      invariant |states| == k
      invariant forall i :: 0 <= i < k ==> states[i] == Midway(apply, init, op, a, b, c, i)
    {
      states := states + [Midway(apply, init, op, a, b, c, k)];
    }
    forall i | 0 <= i < |events|
      ensures Step(apply, states[i], events[i], states[i + 1])
    {
      if i < 3 {
        MidwayDoes(apply, init, op, a, b, c, i, events[i]);
      } else {
        MidwayLeaves(apply, init, op, a, b, c, i, events[i]);
      }
    }
  }

  ghost function Midway<D(!new), O(!new), R(!new)>(apply: (O, D) -> (D, R), init: D, op: O, a: string, b: string,
                                                   c: string, k: nat): System<D, O, R>
  {
    var (d, r) := apply(op, init);
    match k
    case 0 => System(map[], "", init, None, {}, [])
    case 1 => System(map[0 := Process(a, init, Ready)], "", init, Some(0), {a}, [])
    case 2 => System(map[0 := Process(a, d, Phase.Changed(op, r))], "", init, Some(0), {a}, [])
    case 3 => System(map[0 := Process(a, d, Saved)], "", d, Some(0), {a}, [(op, r)])
    case 4 => System(map[0 := Process(b, d, Ready)], b, d, Some(0), {a, b}, [(op, r)])
    case 5 => System(map[0 := Process(b, d, Idle)], b, d, None, {a, b}, [(op, r)])
    case _ => System(map[0 := Process(b, d, Idle), 1 := Process(c, d, Ready)], b, d, Some(1), {a, b, c}, [(op, r)])
  }

  lemma MidwayDoes<D(!new), O(!new), R(!new)>(apply: (O, D) -> (D, R), init: D, op: O, a: string, b: string, c: string,
                                              k: nat, e: Event<O>)
    requires |a| == TAG_LENGTH && k < 3 && e == match k case 0 => Start(0, a) case 1 => Change(0, op) case _ => Save(0)
    ensures Step(apply, Midway(apply, init, op, a, b, c, k), e, Midway(apply, init, op, a, b, c, k + 1))
  {
  }

  lemma MidwayLeaves<D(!new), O(!new), R(!new)>(apply: (O, D) -> (D, R), init: D, op: O, a: string, b: string,
                                                c: string,
                                                k: nat, e: Event<O>)
    requires |b| == |c| == TAG_LENGTH && a != b && a != c && b != c
    requires 3 <= k < 6 && e == match k case 3 => Touch(0, b) case 4 => Unlock(0) case _ => Start(1, c)
    ensures Step(apply, Midway(apply, init, op, a, b, c, k), e, Midway(apply, init, op, a, b, c, k + 1))
  {
    assert Stamped("", b, |b|) == b;
  }

  // ---- A change that is not saved ----

  /** A process past its look at the tag changes its copy and goes on without saving, as the layer
      store's Delete does outside daemon mode. */
  ghost predicate UnsavedChange<D(!new), O(!new), R(!new)>(apply: (O, D) -> (D, R), s: System<D, O, R>, p: Pid, op: O,
      s': System<D, O, R>)
  {
    && p in s.procs && s.procs[p].phase == Ready
    && s' == With(s, p, s.procs[p].(cache := apply(op, s.procs[p].cache).0))
  }

  /** This keeps the processes coherent exactly if the operation changed nothing. */
  lemma UnsavedKeepsIff<D(!new), O(!new), R(!new)>(apply: (O, D) -> (D, R), init: D, s: System<D, O, R>, p: Pid, op: O,
      s': System<D, O, R>)
    requires Inv(apply, init, s) && UnsavedChange(apply, s, p, op, s')
    ensures Inv(apply, init, s') <==> apply(op, s.disk).0 == s.disk
  {
    assert s'.procs[p].phase == Ready;
    if apply(op, s.disk).0 == s.disk {
      assert s'.procs[p] == s.procs[p];
      assert s'.procs == s.procs;
    }
  }

  /** What the others then see: whoever takes the lock next and looks at the tag still has the data
      from before the change, and the process that made it goes on with other data. */
  lemma UnsavedIsUnseen<D(!new), O(!new), R(!new)>(apply: (O, D) -> (D, R), init: D, s: System<D, O, R>, p: Pid,
                                                   op: O, q: Pid,
      s1: System<D, O, R>, s2: System<D, O, R>, s3: System<D, O, R>, s4: System<D, O, R>)
    requires Inv(apply, init, s) && q != p && UnsavedChange(apply, s, p, op, s1)
    requires Step(apply, s1, Event.Unlock(p), s2) && Step(apply, s2, Event.Lock(q), s3)
    requires Step(apply, s3, Event.Check(q), s4)
    ensures s4.disk == s.disk && s4.procs[q].cache == s.disk
    ensures s4.procs[p].cache == apply(op, s.disk).0
  {
    assert s.holder == Some(p) && s.procs[p].phase == Ready;
    assert s3.procs[q] == s.procs[q].(phase := Locked);
    assert s.content != "" ==> s.content[..|s.procs[q].lw|] == s.content;
  }
}
