/** Several processes over one state directory: cron runs, MCP syncs and daemons, their two locks
    and the state files (internal/state/lock.go, store.go, cmd/mail-muncher/daemon.go). */
module Locks {
  import opened Text

  /** A `run` or a sync takes the cycle lock once; a daemon first takes the instance lock, and
      then the cycle lock for every tick. */
  datatype Kind = OneShot | Daemon

  /** Where a process is. Between Load and Save it holds what it loaded; saving writes a temporary
      file first and renames it over the state file. */
  datatype Stage<S> =
    | Starting
    | Idle
    | Holding
    | Fetching(account: string, loaded: S)
    | Saving(account: string, loaded: S, temp: S)
    | Gone

  datatype Process<S> = Process(kind: Kind, stage: Stage<S>)

  /** The two locks, the state files, what stands for one that is not there, and the processes. */
  datatype World<S> = World(
    cycle: Option<nat>, instance: Option<nat>, disk: map<string, S>, zero: S, procs: seq<Process<S>>)

  /** One step of some process. `Fetch` ends a fetch with whatever state it reached; `Discard` is any
      way of not saving: an error, a held or a dry cycle, a write that fails before the rename. */
  datatype Step<S> =
    | Start(kind: Kind)
    | TakeInstance(p: nat)
    | TakeCycle(p: nat)
    | Load(p: nat, account: string)
    | Fetch(p: nat, reached: S)
    | Discard(p: nat)
    | Rename(p: nat)
    | Release(p: nat)
    | Exit(p: nat)
    | Crash(p: nat)

  function StageOf<S>(s: World<S>, p: nat): Stage<S> { if p < |s.procs| then s.procs[p].stage else Gone }

  function At<S>(s: World<S>, p: nat, stage: Stage<S>): World<S>
    requires p < |s.procs|
  {
    s.(procs := s.procs[p := s.procs[p].(stage := stage)])
  }

  predicate Ready<S>(s: World<S>, p: nat) {
    p < |s.procs| && (s.procs[p].stage.Idle? || (s.procs[p].kind.OneShot? && s.procs[p].stage.Starting?))
  }

  predicate Enabled<S>(s: World<S>, step: Step<S>) {
    match step
    case Start(_) => true
    case TakeInstance(p) => p < |s.procs| && s.procs[p].kind.Daemon? && s.procs[p].stage.Starting?
    case TakeCycle(p) => Ready(s, p)
    case Load(p, _) => StageOf(s, p).Holding?
    case Fetch(p, _) => StageOf(s, p).Fetching?
    case Discard(p) => StageOf(s, p).Fetching? || StageOf(s, p).Saving?
    case Rename(p) => StageOf(s, p).Saving?
    case Release(p) => StageOf(s, p).Holding?
    case Exit(p) => StageOf(s, p).Idle?
    case Crash(p) => p < |s.procs|
  }

  /** A lock its holder no longer holds, because it let go, exited or died. */
  function Freed(lock: Option<nat>, p: nat): Option<nat> { if lock == Some(p) then None else lock }

  function OnDisk<S>(s: World<S>, account: string): S { if account in s.disk then s.disk[account] else s.zero }

  function Next<S>(s: World<S>, step: Step<S>): World<S>
    requires Enabled(s, step)
  {
    match step
    case Start(kind) => s.(procs := s.procs + [Process(kind, Starting)])
    case TakeInstance(p) => if s.instance.Some? then At(s, p, Gone) else At(s, p, Idle).(instance := Some(p))
    case TakeCycle(p) =>
      if s.cycle.None? then At(s, p, Holding).(cycle := Some(p))
      else if s.procs[p].kind.Daemon? then s
      else At(s, p, Gone)
    case Load(p, account) => At(s, p, Fetching(account, OnDisk(s, account)))
    case Fetch(p, reached) => At(s, p, Saving(StageOf(s, p).account, StageOf(s, p).loaded, reached))
    case Discard(p) => At(s, p, Holding)
    case Rename(p) => At(s, p, Holding).(disk := s.disk[StageOf(s, p).account := StageOf(s, p).temp])
    case Release(p) => At(s, p, if s.procs[p].kind.Daemon? then Idle else Gone).(cycle := Freed(s.cycle, p))
    case Exit(p) => At(s, p, Gone).(instance := Freed(s.instance, p))
    case Crash(p) => At(s, p, Gone).(cycle := Freed(s.cycle, p), instance := Freed(s.instance, p))
  }

  function Run<S>(s: World<S>, steps: seq<Step<S>>): World<S>
    requires AllEnabled(s, steps)
    decreases |steps|
  {
    if steps == [] then s else Run(Next(s, steps[0]), steps[1..])
  }

  predicate AllEnabled<S>(s: World<S>, steps: seq<Step<S>>)
    decreases |steps|
  {
    steps != [] ==> Enabled(s, steps[0]) && AllEnabled(Next(s, steps[0]), steps[1..])
  }

  // ----------------------------------------------------------------------- the invariant

  /** A process in a cycle: it has the lock, and has not released it. */
  predicate InCycle<S>(stage: Stage<S>) { stage.Holding? || stage.Fetching? || stage.Saving? }

  /** A daemon past its start. */
  predicate Alive<S>(p: Process<S>) { p.kind.Daemon? && !p.stage.Starting? && !p.stage.Gone? }

  ghost predicate ProcOk<S>(s: World<S>, p: nat)
    requires p < |s.procs|
  {
    var proc := s.procs[p];
    && (InCycle(proc.stage) <==> s.cycle == Some(p))
    && (Alive(proc) <==> s.instance == Some(p))
    && (proc.stage.Fetching? ==> proc.stage.loaded == OnDisk(s, proc.stage.account))
    && (proc.stage.Saving? ==> proc.stage.loaded == OnDisk(s, proc.stage.account))
  }

  ghost predicate Inv<S>(s: World<S>) {
    && (s.cycle.Some? ==> s.cycle.value < |s.procs|) && (s.instance.Some? ==> s.instance.value < |s.procs|)
    && forall p | 0 <= p < |s.procs| :: ProcOk(s, p)
  }

  lemma StepKeepsInv<S>(s: World<S>, step: Step<S>)
    requires Inv(s) && Enabled(s, step)
    ensures Inv(Next(s, step))
  {
    var s' := Next(s, step);
    if !step.Start? {
      assert ProcOk(s, step.p);
    }
    forall p | 0 <= p < |s'.procs| ensures ProcOk(s', p) {
      if p < |s.procs| {
        assert ProcOk(s, p);
      }
    }
  }

  lemma {:induction false} RunKeepsInv<S>(s: World<S>, steps: seq<Step<S>>)
    requires Inv(s) && AllEnabled(s, steps)
    ensures Inv(Run(s, steps))
    decreases |steps|
  {
    if steps != [] {
      StepKeepsInv(s, steps[0]);
      RunKeepsInv(Next(s, steps[0]), steps[1..]);
    }
  }

  // ------------------------------------------------------------------------ the theorems

  ghost predicate Fresh<S>(s: World<S>) { s.cycle == None && s.instance == None && s.procs == [] }

  /** Under any interleaving, with crashes anywhere: at most one process is between taking and
      releasing the cycle lock, and at most one daemon is alive. */
  lemma AtMostOne<S>(start: World<S>, steps: seq<Step<S>>, p: nat, q: nat)
    requires Fresh(start) && AllEnabled(start, steps)
    ensures var s := Run(start, steps);
            && (InCycle(StageOf(s, p)) && InCycle(StageOf(s, q)) ==> p == q)
            && (p < |s.procs| && q < |s.procs| && Alive(s.procs[p]) && Alive(s.procs[q]) ==> p == q)
  {
    RunKeepsInv(start, steps);
    var s := Run(start, steps);
    if p < |s.procs| && q < |s.procs| {
      assert ProcOk(s, p) && ProcOk(s, q);
    }
  }

  /** No update is lost: the state file a save replaces is the very one its fetch started from. */
  lemma NoLostUpdate<S>(start: World<S>, steps: seq<Step<S>>, p: nat)
    requires Fresh(start) && AllEnabled(start, steps) && StageOf(Run(start, steps), p).Saving?
    ensures var s := Run(start, steps);
            StageOf(s, p).loaded == OnDisk(s, StageOf(s, p).account)
  {
    RunKeepsInv(start, steps);
    assert ProcOk(Run(start, steps), p);
  }

  /** A state file changes only by a rename, and then to exactly what that save wrote: a crash or a
      failure anywhere before it leaves the previous one. */
  lemma SavesAreAtomic<S>(s: World<S>, step: Step<S>, account: string)
    requires Enabled(s, step)
    ensures var s' := Next(s, step);
            OnDisk(s', account) == if step.Rename? && StageOf(s, step.p).account == account then StageOf(s, step.p).temp
                                   else OnDisk(s, account)
  {
  }

  /** The saves of one account over a run: the state each was fetched from, and the one it wrote. */
  function SavesOf<S>(s: World<S>, steps: seq<Step<S>>, account: string): seq<(S, S)>
    requires AllEnabled(s, steps)
    decreases |steps|
  {
    if steps == [] then []
    else
      var rest := SavesOf(Next(s, steps[0]), steps[1..], account);
      if steps[0].Rename? && StageOf(s, steps[0].p).account == account
      then [(StageOf(s, steps[0].p).loaded, StageOf(s, steps[0].p).temp)] + rest
      else rest
  }

  /** Each save was fetched from what the one before it wrote. */
  predicate Chain<S(==)>(saves: seq<(S, S)>, first: S, last: S)
    decreases |saves|
  {
    if saves == [] then first == last else saves[0].0 == first && Chain(saves[1..], saves[0].1, last)
  }

  /** Under any interleaving of any number of processes, with crashes anywhere, the saves of an
      account form one sequential history, from the state file there was to the one there is. */
  lemma {:induction false} SavesFormAChain<S>(s: World<S>, steps: seq<Step<S>>, account: string)
    requires Inv(s) && AllEnabled(s, steps)
    ensures Chain(SavesOf(s, steps, account), OnDisk(s, account), OnDisk(Run(s, steps), account))
    decreases |steps|
  {
    if steps != [] {
      if steps[0].Rename? {
        assert ProcOk(s, steps[0].p);
      }
      SavesAreAtomic(s, steps[0], account);
      StepKeepsInv(s, steps[0]);
      SavesFormAChain(Next(s, steps[0]), steps[1..], account);
    }
  }

  /** Every fetch of this account's that the run makes is one that can be made. */
  ghost predicate AllFetch<S>(s: World<S>, steps: seq<Step<S>>, account: string, made: (S, S) -> bool)
    requires AllEnabled(s, steps)
    decreases |steps|
  {
    steps != [] ==>
      && (steps[0].Fetch? && StageOf(s, steps[0].p).account == account ==> made(StageOf(s, steps[0].p).loaded, steps[0].reached))
      && AllFetch(Next(s, steps[0]), steps[1..], account, made)
  }

  /** What waits to be written was reached by such a fetch. */
  ghost predicate Waiting<S>(s: World<S>, account: string, made: (S, S) -> bool) {
    forall p | 0 <= p < |s.procs| && s.procs[p].stage.Saving? && s.procs[p].stage.account == account ::
      made(s.procs[p].stage.loaded, s.procs[p].stage.temp)
  }

  lemma {:induction false} SavesAreFetches<S>(s: World<S>, steps: seq<Step<S>>, account: string, made: (S, S) -> bool)
    requires Waiting(s, account, made) && AllEnabled(s, steps) && AllFetch(s, steps, account, made)
    ensures forall save | save in SavesOf(s, steps, account) :: made(save.0, save.1)
    decreases |steps|
  {
    if steps != [] {
      SavesAreFetches(Next(s, steps[0]), steps[1..], account, made);
    }
  }

  lemma {:induction false} ChainGrows<S(!new)>(saves: seq<(S, S)>, first: S, last: S, le: (S, S) -> bool)
    requires Chain(saves, first, last) && forall save | save in saves :: le(save.0, save.1)
    requires (forall x :: le(x, x)) && forall x, y, z | le(x, y) && le(y, z) :: le(x, z)
    ensures le(first, last)
    decreases |saves|
  {
    if saves != [] {
      assert saves[0] in saves && forall save | save in saves[1..] :: save in saves;
      ChainGrows(saves[1..], saves[0].1, last, le);
    }
  }

  /** Whatever order an account's fetches respect its state file respects, whoever runs and whoever
      dies: the file is no further back after a run than before it unless one of the fetches is. */
  lemma PassedOnlyGrows<S(!new)>(start: World<S>, steps: seq<Step<S>>, account: string, le: (S, S) -> bool)
    requires Fresh(start) && AllEnabled(start, steps) && AllFetch(start, steps, account, le)
    requires (forall x :: le(x, x)) && forall x, y, z | le(x, y) && le(y, z) :: le(x, z)
    ensures le(OnDisk(start, account), OnDisk(Run(start, steps), account))
  {
    SavesFormAChain(start, steps, account);
    SavesAreFetches(start, steps, account, le);
    ChainGrows(SavesOf(start, steps, account), OnDisk(start, account), OnDisk(Run(start, steps), account), le);
  }

  /** A dead holder blocks no one: whenever no process is in a cycle the next to ask gets the lock. */
  lemma FreeWhenNobodyHolds<S>(start: World<S>, steps: seq<Step<S>>, p: nat)
    requires Fresh(start) && AllEnabled(start, steps) && Ready(Run(start, steps), p)
    ensures var s := Run(start, steps);
            StageOf(Next(s, TakeCycle(p)), p).Holding? <==> forall q | 0 <= q < |s.procs| :: !InCycle(s.procs[q].stage)
  {
    RunKeepsInv(start, steps);
    var s := Run(start, steps);
    if s.cycle.Some? {
      assert ProcOk(s, s.cycle.value);
    } else {
      forall q | 0 <= q < |s.procs| ensures !InCycle(s.procs[q].stage) {
        assert ProcOk(s, q);
      }
    }
  }
}
