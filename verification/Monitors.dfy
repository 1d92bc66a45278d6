/** Monitor definitions, the worker threads that probe them, and ownership by generation. */
module Monitors {

  type Name = string

  datatype Definition = Definition(kind: string, host: string, interval: int)

  datatype Monitor = Monitor(name: Name, definition: Definition)

  /** A stored latency; `of` is what was probed to get it. */
  datatype Reading = Initial | Measured(of: Definition, latency: int)

  datatype Entry = Entry(definition: Definition, reading: Reading, generation: nat)

  /** A worker runs its loop: check ownership, probe, store, sleep. */
  datatype Phase = Checking | Probing | Sleeping | Stopped

  datatype Worker = Worker(name: Name, definition: Definition, phase: Phase)

  /** Workers are keyed by the generation they were started with. */
  datatype State = State(table: map<Name, Entry>, workers: map<nat, Worker>, nextGeneration: nat)

  const INITIAL := State(map[], map[], 1)

  // ---- Installing a list of definitions

  datatype Plan = Plan(next: map<Name, Entry>, started: map<nat, Worker>, nextGeneration: nat)

  function Planned(s: State, p: Plan, m: Monitor): Plan
  {
    if m.name in s.table && s.table[m.name].definition == m.definition then
      p.(next := p.next[m.name := s.table[m.name]])
    else
      Plan(p.next[m.name := Entry(m.definition, Initial, p.nextGeneration)],
           p.started[p.nextGeneration := Worker(m.name, m.definition, Checking)],
           p.nextGeneration + 1)
  }

  function PlanOf(s: State, monitors: seq<Monitor>): Plan
  {
    if monitors == [] then Plan(map[], map[], s.nextGeneration)
    else Planned(s, PlanOf(s, monitors[..|monitors| - 1]), monitors[|monitors| - 1])
  }

  function Installed(s: State, monitors: seq<Monitor>): State
  {
    var p := PlanOf(s, monitors);
    State(p.next, s.workers + p.started, p.nextGeneration)
  }

  // ---- Worker steps; each is one critical section or none

  predicate Owned(table: map<Name, Entry>, name: Name, generation: nat)
  {
    name in table && table[name].generation == generation
  }

  function Stored(table: map<Name, Entry>, name: Name, generation: nat, reading: Reading): map<Name, Entry>
  {
    if Owned(table, name, generation) then table[name := table[name].(reading := reading)] else table
  }

  predicate Probed(kind: string) { kind == "http" || kind == "https" || kind == "tcp" }

  datatype Step =
    | Install(monitors: seq<Monitor>)
    | Check(generation: nat)
    | Store(generation: nat, latency: int)
    | Skip(generation: nat)
    | Wake(generation: nat)

  predicate InPhase(s: State, generation: nat, phase: Phase)
  {
    generation in s.workers && s.workers[generation].phase == phase
  }

  predicate Enabled(s: State, step: Step)
  {
    match step
    case Install(_) => true
    case Check(g) => InPhase(s, g, Checking)
    case Store(g, _) => InPhase(s, g, Probing) && Probed(s.workers[g].definition.kind)
    case Skip(g) => InPhase(s, g, Probing) && !Probed(s.workers[g].definition.kind)
    case Wake(g) => InPhase(s, g, Sleeping)
  }

  function Moved(s: State, g: nat, phase: Phase): State
    requires g in s.workers
  {
    s.(workers := s.workers[g := s.workers[g].(phase := phase)])
  }

  function Apply(s: State, step: Step): State
    requires Enabled(s, step)
  {
    match step
    case Install(monitors) => Installed(s, monitors)
    case Check(g) => Moved(s, g, if Owned(s.table, s.workers[g].name, g) then Probing else Stopped)
    case Store(g, latency) =>
      var w := s.workers[g];
      Moved(s.(table := Stored(s.table, w.name, g, Measured(w.definition, latency))), g, Sleeping)
    case Skip(g) => Moved(s, g, Sleeping)
    case Wake(g) => Moved(s, g, Checking)
  }

  predicate Runs(s: State, run: seq<Step>)
    decreases |run|
  {
    run == [] || (Enabled(s, run[0]) && Runs(Apply(s, run[0]), run[1..]))
  }

  function Exec(s: State, run: seq<Step>): State
    requires Runs(s, run)
    decreases |run|
  {
    if run == [] then s else Exec(Apply(s, run[0]), run[1..])
  }

  /** One pass of a worker's loop when nobody else comes in between. */
  function PassOf(s: State, g: nat, latency: int): seq<Step>
    requires InPhase(s, g, Checking)
  {
    if !Owned(s.table, s.workers[g].name, g) then [Check(g)]
    else [Check(g), if Probed(s.workers[g].definition.kind) then Store(g, latency) else Skip(g), Wake(g)]
  }

  lemma PassRuns(s: State, g: nat, latency: int)
    requires InPhase(s, g, Checking)
    ensures Runs(s, PassOf(s, g, latency))
    ensures var w := s.workers[g]; var owned := Owned(s.table, w.name, g);
            Exec(s, PassOf(s, g, latency))
            == State(if owned && Probed(w.definition.kind) then Stored(s.table, w.name, g, Measured(w.definition, latency)) else s.table,
                     s.workers[g := w.(phase := if owned then Checking else Stopped)], s.nextGeneration)
  {
    var pass, w := PassOf(s, g, latency), s.workers[g];
    var s1 := Apply(s, pass[0]);
    assert Runs(s1, []) && Exec(s1, []) == s1;
    if Owned(s.table, w.name, g) {
      assert pass[1..] == [pass[1], pass[2]] && pass[1..][1..] == [pass[2]] && [pass[2]][1..] == [];
      var s2 := Apply(s1, pass[1]);
      var s3 := Apply(s2, pass[2]);
      assert Runs(s2, [pass[2]]) && Exec(s2, [pass[2]]) == s3;
      assert s3.workers == s.workers[g := w.(phase := Checking)];
    } else {
      assert pass[1..] == [];
    }
  }

  // ---- The client's table and threads

  class MonitorTable {
    var table: map<Name, Entry>
    var workers: map<nat, Worker>
    var nextGeneration: nat

    function View(): State
      reads this
    {
      State(table, workers, nextGeneration)
    }

    constructor ()
      ensures View() == INITIAL
    {
      table, workers, nextGeneration := map[], map[], 1;
    }

    /** Runs under the table's lock, thread starts included. */
    method InstallMonitorDefinitions(monitors: seq<Monitor>)
      modifies this
      ensures View() == Installed(old(View()), monitors)
    {
      var next: map<Name, Entry> := map[];
      var started: map<nat, Worker> := map[];
      for i := 0 to |monitors|
        invariant table == old(table) && workers == old(workers)
        invariant Plan(next, started, nextGeneration) == PlanOf(old(View()), monitors[..i])
      {
        var m := monitors[i];
        assert monitors[..i + 1][..i] == monitors[..i];
        if m.name in table && table[m.name].definition == m.definition {
          next := next[m.name := table[m.name]];
          continue;
        }
        next := next[m.name := Entry(m.definition, Initial, nextGeneration)];
        started := started[nextGeneration := Worker(m.name, m.definition, Checking)];
        nextGeneration := nextGeneration + 1;
      }
      assert monitors[..|monitors|] == monitors;
      table := next;
      workers := workers + started;
    }

    method MonitorOwned(name: Name, generation: nat) returns (owned: bool)
      ensures owned == Owned(table, name, generation)
    {
      owned := name in table && table[name].generation == generation;
    }

    method SetMonitorLatency(name: Name, reading: Reading, generation: nat)
      modifies this`table
      ensures table == Stored(old(table), name, generation, reading)
    {
      if name in table && table[name].generation == generation {
        table := table[name := table[name].(reading := reading)];
      }
    }

    /** The body of a worker's loop, with what its probe measured: the ownership check, the store, the phases. */
    method WorkerPass(g: nat, latency: int) returns (running: bool)
      requires InPhase(View(), g, Checking)
      modifies this`table, this`workers
      ensures Runs(old(View()), PassOf(old(View()), g, latency))
      ensures View() == Exec(old(View()), PassOf(old(View()), g, latency))
      ensures running == Owned(old(table), old(workers)[g].name, g)
    {
      PassRuns(View(), g, latency);
      var w := workers[g];
      running := MonitorOwned(w.name, g);
      if !running {
        workers := workers[g := w.(phase := Stopped)];
        return;
      }
      workers := workers[g := w.(phase := Probing)];
      if Probed(w.definition.kind) { SetMonitorLatency(w.name, Measured(w.definition, latency), g); }
      workers := workers[g := w.(phase := Sleeping)];
      workers := workers[g := w.(phase := Checking)];
      assert workers == old(workers)[g := w.(phase := Checking)];
    }
  }

  // ---- Ownership

  /** The worker of an entry's generation is alive, probes what the entry says, and nothing else was stored there. */
  ghost predicate Served(s: State, name: Name)
    requires name in s.table
  {
    var e := s.table[name];
    && e.generation in s.workers
    && s.workers[e.generation].name == name && s.workers[e.generation].definition == e.definition
    && !s.workers[e.generation].phase.Stopped?
    && (e.reading.Measured? ==> e.reading.of == e.definition)
  }

  ghost predicate Valid(s: State)
  {
    && (forall g :: g in s.workers ==> g < s.nextGeneration)
    && (forall name :: name in s.table ==> Served(s, name))
  }

  /** A planned entry is the unchanged previous one, or belongs to the worker the plan started last for it. */
  lemma {:induction false} PlanIsSound(s: State, monitors: seq<Monitor>)
    requires Valid(s)
    ensures var p := PlanOf(s, monitors);
            && p.nextGeneration >= s.nextGeneration
            && (forall g :: g in p.started ==> s.nextGeneration <= g < p.nextGeneration)
            && (forall name :: name in p.next ==>
                 (name in s.table && p.next[name] == s.table[name])
                 || (p.next[name].reading.Initial? && p.next[name].generation in p.started
                     && p.started[p.next[name].generation] == Worker(name, p.next[name].definition, Checking)))
  {
    if monitors != [] { PlanIsSound(s, monitors[..|monitors| - 1]); }
  }

  lemma InstallKeepsValid(s: State, monitors: seq<Monitor>)
    requires Valid(s)
    ensures Valid(Installed(s, monitors))
  {
    PlanIsSound(s, monitors);
    var after := Installed(s, monitors);
    forall name | name in after.table ensures Served(after, name) {
      if name in s.table && after.table[name] == s.table[name] { assert Served(s, name); }
    }
  }

  lemma StepKeepsValid(s: State, step: Step)
    requires Valid(s) && Enabled(s, step)
    ensures Valid(Apply(s, step))
  {
    if step.Install? {
      InstallKeepsValid(s, step.monitors);
    } else {
      var after := Apply(s, step);
      forall name | name in after.table ensures Served(after, name) { assert Served(s, name); }
    }
  }

  lemma {:induction false} RunKeepsValid(s: State, run: seq<Step>)
    requires Valid(s) && Runs(s, run)
    ensures Valid(Exec(s, run))
    decreases |run|
  {
    if run != [] {
      StepKeepsValid(s, run[0]);
      RunKeepsValid(Apply(s, run[0]), run[1..]);
    }
  }

  // ---- Generations and steps

  lemma {:induction false} PlanNumbers(s: State, monitors: seq<Monitor>)
    ensures var p := PlanOf(s, monitors);
            p.nextGeneration >= s.nextGeneration && forall g :: g in p.started <==> s.nextGeneration <= g < p.nextGeneration
    decreases |monitors|
  {
    if monitors != [] {
      PlanNumbers(s, monitors[..|monitors| - 1]);
    }
  }

  /** The generations given out are 1, 2, 3 and so on, one worker each. */
  ghost predicate Numbered(s: State)
  {
    1 <= s.nextGeneration && forall g :: g in s.workers <==> 1 <= g < s.nextGeneration
  }

  lemma StepKeepsNumbered(s: State, step: Step)
    requires Numbered(s) && Enabled(s, step)
    ensures Numbered(Apply(s, step))
  {
    if step.Install? { PlanNumbers(s, step.monitors); }
  }

  lemma {:induction false} RunKeepsNumbered(s: State, run: seq<Step>)
    requires Numbered(s) && Runs(s, run)
    ensures Numbered(Exec(s, run))
    decreases |run|
  {
    if run != [] {
      StepKeepsNumbered(s, run[0]);
      RunKeepsNumbered(Apply(s, run[0]), run[1..]);
    }
  }

  lemma GenerationsAreConsecutive(run: seq<Step>)
    requires Runs(INITIAL, run)
    ensures Numbered(Exec(INITIAL, run))
  {
    RunKeepsNumbered(INITIAL, run);
  }

  /** In every state an install is possible, and a worker can do exactly what its phase says; only three kinds are probed. */
  lemma StepsExactly(s: State, g: nat, monitors: seq<Monitor>, latency: int)
    ensures Enabled(s, Install(monitors))
    ensures g in s.workers ==>
              var w := s.workers[g];
              && (Enabled(s, Check(g)) <==> w.phase == Checking)
              && (Enabled(s, Store(g, latency)) <==> w.phase == Probing && w.definition.kind in {"http", "https", "tcp"})
              && (Enabled(s, Skip(g)) <==> w.phase == Probing && w.definition.kind !in {"http", "https", "tcp"})
              && (Enabled(s, Wake(g)) <==> w.phase == Sleeping)
  {
  }

  // ---- Replaced workers

  /** A started worker that owns nothing. */
  ghost predicate Replaced(s: State, g: nat)
  {
    g in s.workers && forall name :: name in s.table ==> s.table[name].generation != g
  }

  /** A worker that does not own its own name owns nothing, also one superseded within the install that started it. */
  lemma NotOwnerIsReplaced(s: State, g: nat)
    requires Valid(s) && g in s.workers && !Owned(s.table, s.workers[g].name, g)
    ensures Replaced(s, g)
  {
    forall name | name in s.table ensures s.table[name].generation != g { assert Served(s, name); }
  }

  /**
   * Under every interleaving of installs and worker steps, each monitor is served by one worker that
   * runs, with the same definition, and its stored latency was measured against that definition;
   * every other worker that was ever started under the name owns nothing.
   */
  lemma ExactlyOneOwner(run: seq<Step>, name: Name)
    requires Runs(INITIAL, run) && name in Exec(INITIAL, run).table
    ensures var s := Exec(INITIAL, run); var e := s.table[name];
            && e.generation in s.workers && !s.workers[e.generation].phase.Stopped?
            && s.workers[e.generation].name == name && s.workers[e.generation].definition == e.definition
            && (e.reading.Measured? ==> e.reading.of == e.definition)
            && (forall g :: g in s.workers && s.workers[g].name == name && g != e.generation ==> Replaced(s, g))
  {
    RunKeepsValid(INITIAL, run);
    var s := Exec(INITIAL, run);
    assert Served(s, name);
    forall g | g in s.workers && s.workers[g].name == name && g != s.table[name].generation ensures Replaced(s, g) {
      NotOwnerIsReplaced(s, g);
    }
  }

  /** An install starts workers under new generations and touches none that was started before. */
  lemma InstallStartsAnew(s: State, monitors: seq<Monitor>)
    requires Valid(s)
    ensures var after := Installed(s, monitors);
            && (forall g :: g in s.workers ==> g in after.workers && after.workers[g] == s.workers[g])
            && (forall g :: g in after.workers && g !in s.workers ==> s.nextGeneration <= g < after.nextGeneration)
  {
    PlanIsSound(s, monitors);
  }

  lemma StepKeepsReplaced(s: State, step: Step, g: nat)
    requires Valid(s) && Replaced(s, g) && Enabled(s, step)
    ensures Replaced(Apply(s, step), g)
    ensures step == Check(g) ==> Apply(s, step).workers[g].phase.Stopped?
    ensures step.Store? && step.generation == g ==> Apply(s, step).table == s.table
    ensures s.workers[g].phase.Stopped? ==> Apply(s, step).workers[g] == s.workers[g]
  {
    if step.Install? { PlanIsSound(s, step.monitors); }
  }

  /**
   * A worker that lost its monitor never owns or writes again: over any further run it owns nothing,
   * whatever it stores changes nothing, and its next ownership check stops it for good.
   */
  lemma {:induction false} ReplacedForGood(s: State, run: seq<Step>, g: nat)
    requires Valid(s) && Replaced(s, g) && Runs(s, run)
    ensures Replaced(Exec(s, run), g)
    ensures s.workers[g].phase.Stopped? ==> Exec(s, run).workers[g].phase.Stopped?
    ensures Check(g) in run ==> Exec(s, run).workers[g].phase.Stopped?
    ensures forall i :: 0 <= i < |run| && run[i].Store? && run[i].generation == g ==>
              Runs(s, run[..i]) && Runs(s, run[..i + 1]) && Exec(s, run[..i + 1]).table == Exec(s, run[..i]).table
    decreases |run|
  {
    if run != [] {
      var next := Apply(s, run[0]);
      StepKeepsValid(s, run[0]);
      StepKeepsReplaced(s, run[0], g);
      ReplacedForGood(next, run[1..], g);
      forall i | 0 <= i < |run| && run[i].Store? && run[i].generation == g
        ensures Runs(s, run[..i]) && Runs(s, run[..i + 1]) && Exec(s, run[..i + 1]).table == Exec(s, run[..i]).table
      {
        assert run[..i + 1][1..] == run[1..][..i];
        if i > 0 {
          assert run[1..][i - 1] == run[i];
          assert run[..i][1..] == run[1..][..i - 1];
        }
      }
    }
  }

  lemma {:induction false} RunSplits(s: State, run: seq<Step>, i: nat)
    requires Runs(s, run) && i <= |run|
    ensures Runs(s, run[..i]) && Runs(Exec(s, run[..i]), run[i..]) && Exec(s, run) == Exec(Exec(s, run[..i]), run[i..])
    decreases |run|
  {
    if i == 0 {
      assert run[0..] == run;
    } else {
      RunSplits(Apply(s, run[0]), run[1..], i - 1);
      assert run[..i][1..] == run[1..][..i - 1] && run[1..][i - 1..] == run[i..];
    }
  }

  /**
   * Every worker ever started, in any run: from the first moment it does not own its name it owns nothing,
   * nothing it stores changes the table, and its next ownership check stops it for good.
   */
  lemma EveryOtherWorkerStops(run: seq<Step>, i: nat, g: nat)
    requires Runs(INITIAL, run) && i <= |run| && Runs(INITIAL, run[..i])
    requires var s := Exec(INITIAL, run[..i]); g in s.workers && !Owned(s.table, s.workers[g].name, g)
    ensures var s, rest, last := Exec(INITIAL, run[..i]), run[i..], Exec(INITIAL, run);
            && Runs(s, rest) && Replaced(last, g)
            && (s.workers[g].phase.Stopped? || Check(g) in rest ==> last.workers[g].phase.Stopped?)
            && (forall j :: 0 <= j < |rest| && rest[j].Store? && rest[j].generation == g ==>
                  Runs(s, rest[..j]) && Runs(s, rest[..j + 1]) && Exec(s, rest[..j + 1]).table == Exec(s, rest[..j]).table)
  {
    RunSplits(INITIAL, run, i);
    RunKeepsValid(INITIAL, run[..i]);
    NotOwnerIsReplaced(Exec(INITIAL, run[..i]), g);
    ReplacedForGood(Exec(INITIAL, run[..i]), run[i..], g);
  }

  /** Replacing or dropping a definition does retire its worker: after an install only planned generations own anything. */
  lemma InstallRetires(s: State, monitors: seq<Monitor>, name: Name)
    requires Valid(s) && name in s.table
    requires name in Installed(s, monitors).table ==> Installed(s, monitors).table[name].generation != s.table[name].generation
    ensures Replaced(Installed(s, monitors), s.table[name].generation)
  {
    PlanIsSound(s, monitors);
    assert Served(s, name);
    var after := Installed(s, monitors);
    forall other | other in after.table ensures after.table[other].generation != s.table[name].generation {
      if other in s.table && after.table[other] == s.table[other] { assert Served(s, other); }
    }
  }

  // ---- What an entry reads

  /** A store by the owner sets exactly its entry's reading, to what was measured against the entry's definition. */
  lemma OwnersStoreTakesEffect(s: State, g: nat, latency: int)
    requires Valid(s) && Enabled(s, Store(g, latency)) && Owned(s.table, s.workers[g].name, g)
    ensures var after, name := Apply(s, Store(g, latency)), s.workers[g].name;
            && after.table.Keys == s.table.Keys
            && after.table[name] == Entry(s.table[name].definition, Measured(s.table[name].definition, latency), g)
            && (forall other :: other in s.table && other != name ==> after.table[other] == s.table[other])
            && after.workers == s.workers[g := Worker(name, s.workers[g].definition, Sleeping)]
  {
    assert Served(s, s.workers[g].name);
  }

  /** The latencies stored under a generation, in order. */
  function StoredBy(run: seq<Step>, g: nat): seq<int>
  {
    if run == [] then []
    else
      var last := run[|run| - 1];
      StoredBy(run[..|run| - 1], g) + if last.Store? && last.generation == g then [last.latency] else []
  }

  function LastReading(definition: Definition, latencies: seq<int>): Reading
  {
    if latencies == [] then Initial else Measured(definition, latencies[|latencies| - 1])
  }

  /** Each entry reads what its own worker stored last; a generation that no worker has yet has stored nothing. */
  ghost predicate Read(s: State, history: seq<Step>)
  {
    && (forall name :: name in s.table ==>
          s.table[name].reading == LastReading(s.table[name].definition, StoredBy(history, s.table[name].generation)))
    && (forall g :: g !in s.workers ==> StoredBy(history, g) == [])
  }

  lemma StoredBySnoc(history: seq<Step>, step: Step, g: nat)
    ensures StoredBy(history + [step], g)
         == StoredBy(history, g) + if step.Store? && step.generation == g then [step.latency] else []
  {
    assert (history + [step])[..|history|] == history;
  }

  lemma InstallKeepsRead(s: State, history: seq<Step>, monitors: seq<Monitor>)
    requires Valid(s) && Read(s, history)
    ensures Read(Installed(s, monitors), history + [Install(monitors)])
  {
    PlanIsSound(s, monitors);
    forall g ensures StoredBy(history + [Install(monitors)], g) == StoredBy(history, g) {
      StoredBySnoc(history, Install(monitors), g);
    }
  }

  lemma StoredByStore(history: seq<Step>, g: nat, latency: int)
    ensures forall h: nat :: StoredBy(history + [Store(g, latency)], h) == StoredBy(history, h) + if h == g then [latency] else []
  {
    forall h: nat ensures StoredBy(history + [Store(g, latency)], h) == StoredBy(history, h) + if h == g then [latency] else [] {
      StoredBySnoc(history, Store(g, latency), h);
    }
  }

  lemma OwnersStoreKeepsRead(s: State, history: seq<Step>, g: nat, latency: int)
    requires Valid(s) && Read(s, history) && Enabled(s, Store(g, latency)) && Owned(s.table, s.workers[g].name, g)
    ensures Read(Apply(s, Store(g, latency)), history + [Store(g, latency)])
  {
    StoredByStore(history, g, latency);
    OwnersStoreTakesEffect(s, g, latency);
    forall other | other in s.table && other != s.workers[g].name ensures s.table[other].generation != g {
      assert Served(s, other);
    }
  }

  lemma OthersStoreKeepsRead(s: State, history: seq<Step>, g: nat, latency: int)
    requires Valid(s) && Read(s, history) && Enabled(s, Store(g, latency)) && !Owned(s.table, s.workers[g].name, g)
    ensures Read(Apply(s, Store(g, latency)), history + [Store(g, latency)])
  {
    StoredByStore(history, g, latency);
    NotOwnerIsReplaced(s, g);
  }

  lemma StepKeepsRead(s: State, history: seq<Step>, step: Step)
    requires Valid(s) && Read(s, history) && Enabled(s, step)
    ensures Read(Apply(s, step), history + [step])
  {
    if step.Install? {
      InstallKeepsRead(s, history, step.monitors);
    } else if step.Store? {
      if Owned(s.table, s.workers[step.generation].name, step.generation) {
        OwnersStoreKeepsRead(s, history, step.generation, step.latency);
      } else {
        OthersStoreKeepsRead(s, history, step.generation, step.latency);
      }
    } else {
      forall g: nat ensures StoredBy(history + [step], g) == StoredBy(history, g) { StoredBySnoc(history, step, g); }
    }
  }

  lemma {:induction false} RunKeepsRead(s: State, history: seq<Step>, run: seq<Step>)
    requires Valid(s) && Read(s, history) && Runs(s, run)
    ensures Read(Exec(s, run), history + run)
    decreases |run|
  {
    if run == [] {
      assert history + run == history;
    } else {
      StepKeepsValid(s, run[0]);
      StepKeepsRead(s, history, run[0]);
      RunKeepsRead(Apply(s, run[0]), history + [run[0]], run[1..]);
      assert history + [run[0]] + run[1..] == history + run;
    }
  }

  /**
   * Over every run an entry shows the latency that its owner stored last, measured against the entry's
   * definition, and shows the initial value exactly if its owner has stored none.
   */
  lemma EntryReadsLastStore(run: seq<Step>, name: Name)
    requires Runs(INITIAL, run) && name in Exec(INITIAL, run).table
    ensures var e := Exec(INITIAL, run).table[name];
            var latencies := StoredBy(run, e.generation);
            && (e.reading == Initial <==> latencies == [])
            && (latencies != [] ==> e.reading == Measured(e.definition, latencies[|latencies| - 1]))
  {
    RunKeepsRead(INITIAL, [], run);
    assert [] + run == run;
  }

  predicate LastListed(monitors: seq<Monitor>, i: int)
  {
    0 <= i < |monitors| && forall j :: i < j < |monitors| ==> monitors[j].name != monitors[i].name
  }

  /** The definition is in the table, in the previous entry if that one had the same definition. */
  predicate Carried(s: State, next: map<Name, Entry>, m: Monitor)
  {
    && m.name in next && next[m.name].definition == m.definition
    && (m.name in s.table && s.table[m.name].definition == m.definition ==> next[m.name] == s.table[m.name])
  }

  ghost predicate Listed(monitors: seq<Monitor>, name: Name)
  {
    exists i :: LastListed(monitors, i) && monitors[i].name == name
  }

  lemma LastListedSnoc(front: seq<Monitor>, last: Monitor, i: int)
    ensures LastListed(front + [last], i) <==> i == |front| || (LastListed(front, i) && front[i].name != last.name)
  {
    var all := front + [last];
    assert all[|front|] == last;
    assert forall j :: 0 <= j < |front| ==> all[j] == front[j];
  }

  lemma ListedSnoc(front: seq<Monitor>, last: Monitor, name: Name)
    requires name == last.name || Listed(front, name)
    ensures Listed(front + [last], name)
  {
    LastListedSnoc(front, last, |front|);
    if name != last.name {
      var i :| LastListed(front, i) && front[i].name == name;
      LastListedSnoc(front, last, i);
      assert (front + [last])[i] == front[i];
    }
  }

  /** The table an install leaves: the listed names, each with its last listed definition. */
  lemma {:induction false} InstalledTable(s: State, monitors: seq<Monitor>)
    requires Valid(s)
    ensures forall name :: name in PlanOf(s, monitors).next ==> Listed(monitors, name)
    ensures forall i :: LastListed(monitors, i) ==> Carried(s, PlanOf(s, monitors).next, monitors[i])
    decreases |monitors|
  {
    if monitors != [] {
      var front, last := monitors[..|monitors| - 1], monitors[|monitors| - 1];
      InstalledTable(s, front);
      assert monitors == front + [last];
      var before, next := PlanOf(s, front).next, PlanOf(s, monitors).next;
      forall name | name in next ensures Listed(monitors, name) { ListedSnoc(front, last, name); }
      forall i | LastListed(monitors, i) ensures Carried(s, next, monitors[i]) {
        LastListedSnoc(front, last, i);
        if i < |front| { assert Carried(s, before, front[i]); }
      }
    }
  }
}
