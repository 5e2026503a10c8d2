/** Exclusive publishing: any number of writers race for one name by linking complete temporary
    files to it, or, where a link is refused for another reason than a taken name, by creating the
    file in place (internal/sink/sink.go, internal/sink/eml.go). */
module Publish {
  import opened Text
  import opened Mail

  datatype Inode = Plain(data: Bytes) | Symlink

  datatype Report = Created | Skipped | Failed

  /** Where a writer is in Store: checking the name, making its temporary file, writing it,
      claiming the name; creating it in place, filling it, removing it again; judging a lost race,
      removing the temporary, done or dead. */
  datatype Phase =
    | Checking
    | Making
    | Writing(written: nat)
    | Linking
    | Opening
    | Filling(filled: nat)
    | Clearing
    | Judging
    | Cleaning(result: Report)
    | Done(report: Report)
    | Crashed

  /** A writer, the bytes it wants published, and the inode of its temporary file once it has one. */
  datatype Writer = Writer(want: Bytes, phase: Phase, temp: Option<nat>)

  /** The directory as far as one name goes: what it links to, every inode, the writers; and, for
      the record, which writer's whole file took the name, which writers judged it blind, and
      whether the name has been given up again. */
  datatype World = World(
    name: Option<nat>, inodes: seq<Inode>, writers: seq<Writer>, winner: Option<nat>, blind: set<nat>, cleared: bool)

  /** One atomic step: a writer's, with what fails in it; a crash; or someone planting a symlink
      at the name while it is free. */
  datatype Step =
    | Check(w: nat, statFails: bool)
    | Make(w: nat, fails: bool)
    | Write(w: nat, upTo: nat)
    | Close(w: nat, fails: bool)
    | Claim(w: nat, linkFails: bool)
    | Open(w: nat, fails: bool)
    | Fill(w: nat, upTo: nat)
    | Finish(w: nat, fails: bool)
    | Clear(w: nat, fails: bool)
    | Judge(w: nat, statFails: bool)
    | Clean(w: nat)
    | Crash(w: nat)
    | Plant

  predicate Enabled(s: World, step: Step) {
    match step
    case Plant => s.name.None?
    case Crash(w) => w < |s.writers| && !s.writers[w].phase.Done? && !s.writers[w].phase.Crashed?
    case Check(w, _) => w < |s.writers| && s.writers[w].phase.Checking?
    case Make(w, _) => w < |s.writers| && s.writers[w].phase.Making?
    case Write(w, upTo) =>
      w < |s.writers| && s.writers[w].phase.Writing? && s.writers[w].phase.written <= upTo <= |s.writers[w].want|
    case Close(w, fails) =>
      w < |s.writers| && s.writers[w].phase.Writing? && (fails || s.writers[w].phase.written == |s.writers[w].want|)
    case Claim(w, _) => w < |s.writers| && s.writers[w].phase.Linking?
    case Open(w, _) => w < |s.writers| && s.writers[w].phase.Opening?
    case Fill(w, upTo) =>
      w < |s.writers| && s.writers[w].phase.Filling? && s.writers[w].phase.filled <= upTo <= |s.writers[w].want|
    case Finish(w, fails) =>
      w < |s.writers| && s.writers[w].phase.Filling? && (fails || s.writers[w].phase.filled == |s.writers[w].want|)
    case Clear(w, _) => w < |s.writers| && s.writers[w].phase.Clearing?
    case Judge(w, _) => w < |s.writers| && s.writers[w].phase.Judging?
    case Clean(w) => w < |s.writers| && s.writers[w].phase.Cleaning?
  }

  predicate IsLink(s: World) { s.name.Some? && s.name.value < |s.inodes| && s.inodes[s.name.value].Symlink? }

  function At(s: World, w: nat, phase: Phase): World
    requires w < |s.writers|
  {
    s.(writers := s.writers[w := s.writers[w].(phase := phase)])
  }

  function Next(s: World, step: Step): World
    requires Enabled(s, step)
  {
    match step
    case Plant => s.(name := Some(|s.inodes|), inodes := s.inodes + [Symlink])
    case Crash(w) => At(s, w, Crashed)
    case Check(w, statFails) =>
      if statFails || IsLink(s) then At(s, w, Done(Failed))
      else if s.name.Some? then At(s, w, Done(Skipped))
      else At(s, w, Making)
    case Make(w, fails) =>
      if fails then At(s, w, Done(Failed))
      else
        s.(inodes := s.inodes + [Plain([])],
           writers := s.writers[w := Writer(s.writers[w].want, Writing(0), Some(|s.inodes|))])
    case Write(w, upTo) =>
      var temp := s.writers[w].temp;
      if temp.None? || temp.value >= |s.inodes| then s
      else At(s, w, Writing(upTo)).(inodes := s.inodes[temp.value := Plain(s.writers[w].want[..upTo])])
    case Close(w, fails) => At(s, w, if fails then Cleaning(Failed) else Linking)
    case Claim(w, linkFails) =>
      if linkFails then At(s, w, Opening)
      else if s.name.Some? then At(s, w, Judging)
      else At(s, w, Cleaning(Created)).(name := s.writers[w].temp, winner := Some(w))
    case Open(w, fails) =>
      if fails then At(s, w, Cleaning(Failed))
      else if s.name.Some? then At(s, w, Judging)
      else At(s, w, Filling(0)).(name := Some(|s.inodes|), inodes := s.inodes + [Plain([])])
    case Fill(w, upTo) =>
      if s.name.None? || s.name.value >= |s.inodes| then s
      else At(s, w, Filling(upTo)).(inodes := s.inodes[s.name.value := Plain(s.writers[w].want[..upTo])])
    case Finish(w, fails) => if fails then At(s, w, Clearing) else At(s, w, Cleaning(Created)).(winner := Some(w))
    case Clear(w, fails) =>
      if fails then At(s, w, Cleaning(Failed)) else At(s, w, Cleaning(Failed)).(name := None, cleared := true)
    case Judge(w, statFails) =>
      if IsLink(s) && !statFails then At(s, w, Cleaning(Failed))
      else At(s, w, Cleaning(Skipped)).(blind := if statFails then s.blind + {w} else s.blind)
    case Clean(w) => s.(writers := s.writers[w := s.writers[w].(phase := Done(s.writers[w].phase.result), temp := None)])
  }

  function Run(s: World, steps: seq<Step>): World
    requires AllEnabled(s, steps)
    decreases |steps|
  {
    if steps == [] then s else Run(Next(s, steps[0]), steps[1..])
  }

  predicate AllEnabled(s: World, steps: seq<Step>)
    decreases |steps|
  {
    steps != [] ==> Enabled(s, steps[0]) && AllEnabled(Next(s, steps[0]), steps[1..])
  }

  // ----------------------------------------------------------------------- the invariant

  /** A writer whose file, created in place, has the name. */
  predicate Busy(p: Phase) { p.Filling? || p.Clearing? }

  /** A temporary file, or one created in place, holds what its writer has written so far. */
  ghost predicate TempHolds(s: World, w: nat)
    requires w < |s.writers|
  {
    var wr := s.writers[w];
    match wr.phase
    case Writing(n) =>
      n <= |wr.want| && wr.temp.Some? && wr.temp.value < |s.inodes| && s.inodes[wr.temp.value] == Plain(wr.want[..n])
      && s.name != wr.temp
    case Linking =>
      wr.temp.Some? && wr.temp.value < |s.inodes| && s.inodes[wr.temp.value] == Plain(wr.want) && s.name != wr.temp
    case Filling(n) =>
      n <= |wr.want| && s.winner.None? && s.name.Some? && s.name.value < |s.inodes| && s.inodes[s.name.value] == Plain(wr.want[..n])
    case Clearing => s.winner.None? && s.name.Some? && !IsLink(s)
    case _ => true
  }

  /** Every report is true: who created the name is its winner, and a skip found a plain file
      there, unless the look at it failed; or the name has been given up. */
  ghost predicate Reports(s: World, w: nat, r: Report) {
    match r
    case Created => s.winner == Some(w)
    case Skipped => (s.name.Some? && (IsLink(s) ==> w in s.blind)) || s.cleared
    case Failed => true
  }

  ghost predicate WriterOk(s: World, w: nat)
    requires w < |s.writers|
  {
    && TempHolds(s, w)
    && (s.writers[w].phase.Cleaning? ==> Reports(s, w, s.writers[w].phase.result))
    && (s.writers[w].phase.Done? ==> Reports(s, w, s.writers[w].phase.report))
    && (s.writers[w].phase.Judging? ==> s.name.Some? || s.cleared)
  }

  ghost predicate TempsApart(s: World) {
    forall v, w | 0 <= v < w < |s.writers| && s.writers[v].temp.Some? :: s.writers[v].temp != s.writers[w].temp
  }

  /** At most one writer's file is at the name in the making. */
  ghost predicate BusyApart(s: World) {
    forall v, w | 0 <= v < |s.writers| && 0 <= w < |s.writers| && Busy(s.writers[v].phase) && Busy(s.writers[w].phase) :: v == w
  }

  /** The name holds a link, or a plain file; a whole file of some writer's is exactly what it wanted. */
  ghost predicate NameOk(s: World) {
    && (s.name.Some? ==> s.name.value < |s.inodes|)
    && (s.winner.Some? ==>
          && s.winner.value < |s.writers| && s.name.Some?
          && s.inodes[s.name.value] == Plain(s.writers[s.winner.value].want)
          && (s.writers[s.winner.value].phase in {Cleaning(Created), Done(Created), Crashed}))
  }

  ghost predicate Inv(s: World) {
    && NameOk(s) && TempsApart(s) && BusyApart(s)
    && (forall w | 0 <= w < |s.writers| :: s.writers[w].temp.Some? ==> s.writers[w].temp.value < |s.inodes|)
    && (forall w | 0 <= w < |s.writers| :: WriterOk(s, w))
  }

  /** A step that only moves one writer on. */
  lemma PhaseKeepsInv(s: World, w: nat, phase: Phase)
    requires Inv(s) && w < |s.writers|
    requires WriterOk(At(s, w, phase), w) && (Busy(phase) ==> Busy(s.writers[w].phase))
    requires s.winner == Some(w) ==> phase in {Cleaning(Created), Done(Created), Crashed}
    ensures Inv(At(s, w, phase))
  {
    var s' := At(s, w, phase);
    forall v | 0 <= v < |s'.writers| ensures WriterOk(s', v) {
      assert WriterOk(s, v);
    }
  }

  lemma MakeKeepsInv(s: World, w: nat)
    requires Inv(s) && Enabled(s, Make(w, false))
    ensures Inv(Next(s, Make(w, false)))
  {
    var s' := Next(s, Make(w, false));
    forall v | 0 <= v < |s'.writers| ensures WriterOk(s', v) {
      assert WriterOk(s, v);
    }
  }

  lemma WriteKeepsInv(s: World, w: nat, upTo: nat)
    requires Inv(s) && Enabled(s, Write(w, upTo))
    ensures Inv(Next(s, Write(w, upTo)))
  {
    var s' := Next(s, Write(w, upTo));
    assert WriterOk(s, w);
    forall v | 0 <= v < |s'.writers| ensures WriterOk(s', v) {
      assert WriterOk(s, v);
    }
  }

  lemma ClaimKeepsInv(s: World, w: nat)
    requires Inv(s) && Enabled(s, Claim(w, false)) && s.name.None?
    ensures Inv(Next(s, Claim(w, false)))
  {
    var s' := Next(s, Claim(w, false));
    assert WriterOk(s, w);
    forall v | 0 <= v < |s'.writers| ensures WriterOk(s', v) {
      assert WriterOk(s, v);
    }
  }

  lemma NobodyIsBusy(s: World)
    requires Inv(s) && s.name.None?
    ensures forall w | 0 <= w < |s.writers| :: !Busy(s.writers[w].phase)
  {
    forall w | 0 <= w < |s.writers| ensures !Busy(s.writers[w].phase) {
      assert WriterOk(s, w);
    }
  }

  lemma OpenKeepsInv(s: World, w: nat)
    requires Inv(s) && Enabled(s, Open(w, false)) && s.name.None?
    ensures Inv(Next(s, Open(w, false)))
  {
    var s' := Next(s, Open(w, false));
    NobodyIsBusy(s);
    forall v | 0 <= v < |s'.writers| ensures WriterOk(s', v) {
      assert WriterOk(s, v);
    }
  }

  lemma FillKeepsInv(s: World, w: nat, upTo: nat)
    requires Inv(s) && Enabled(s, Fill(w, upTo))
    ensures Inv(Next(s, Fill(w, upTo)))
  {
    var s' := Next(s, Fill(w, upTo));
    assert WriterOk(s, w);
    forall v | 0 <= v < |s'.writers| ensures WriterOk(s', v) {
      assert WriterOk(s, v);
    }
  }

  lemma FinishKeepsInv(s: World, w: nat)
    requires Inv(s) && Enabled(s, Finish(w, false))
    ensures Inv(Next(s, Finish(w, false)))
  {
    var s' := Next(s, Finish(w, false));
    assert WriterOk(s, w);
    assert s.writers[w].want[..|s.writers[w].want|] == s.writers[w].want;
    forall v | 0 <= v < |s'.writers| ensures WriterOk(s', v) {
      assert WriterOk(s, v);
    }
  }

  lemma ClearKeepsInv(s: World, w: nat)
    requires Inv(s) && Enabled(s, Clear(w, false))
    ensures Inv(Next(s, Clear(w, false)))
  {
    var s' := Next(s, Clear(w, false));
    assert WriterOk(s, w);
    forall v | 0 <= v < |s'.writers| ensures WriterOk(s', v) {
      assert WriterOk(s, v);
    }
  }

  lemma BlindKeepsInv(s: World, w: nat)
    requires Inv(s)
    ensures Inv(s.(blind := s.blind + {w}))
  {
    forall v | 0 <= v < |s.writers| ensures WriterOk(s.(blind := s.blind + {w}), v) {
      assert WriterOk(s, v);
    }
  }

  lemma JudgeKeepsInv(s: World, w: nat, statFails: bool)
    requires Inv(s) && Enabled(s, Judge(w, statFails))
    ensures Inv(Next(s, Judge(w, statFails)))
  {
    assert WriterOk(s, w);
    if IsLink(s) && !statFails {
      PhaseKeepsInv(s, w, Cleaning(Failed));
    } else if statFails {
      BlindKeepsInv(s, w);
      PhaseKeepsInv(s.(blind := s.blind + {w}), w, Cleaning(Skipped));
    } else {
      PhaseKeepsInv(s, w, Cleaning(Skipped));
    }
  }

  lemma CleanKeepsInv(s: World, w: nat)
    requires Inv(s) && Enabled(s, Clean(w))
    ensures Inv(Next(s, Clean(w)))
  {
    var s' := Next(s, Clean(w));
    forall v | 0 <= v < |s'.writers| ensures WriterOk(s', v) {
      assert WriterOk(s, v);
    }
  }

  lemma PlantKeepsInv(s: World)
    requires Inv(s) && s.name.None?
    ensures Inv(Next(s, Plant))
  {
    var s' := Next(s, Plant);
    forall v | 0 <= v < |s'.writers| ensures WriterOk(s', v) {
      assert WriterOk(s, v);
    }
  }

  lemma InPlaceKeepsInv(s: World, step: Step)
    requires Inv(s) && Enabled(s, step) && (step.Open? || step.Fill? || step.Finish? || step.Clear?)
    ensures Inv(Next(s, step))
  {
    assert WriterOk(s, step.w);
    match step
    case Open(w, fails) =>
      if fails { PhaseKeepsInv(s, w, Cleaning(Failed)); }
      else if s.name.Some? { PhaseKeepsInv(s, w, Judging); }
      else { OpenKeepsInv(s, w); }
    case Fill(w, upTo) => FillKeepsInv(s, w, upTo);
    case Finish(w, fails) =>
      if fails { PhaseKeepsInv(s, w, Clearing); } else { FinishKeepsInv(s, w); }
    case Clear(w, fails) =>
      if fails { PhaseKeepsInv(s, w, Cleaning(Failed)); } else { ClearKeepsInv(s, w); }
  }

  lemma StepKeepsInv(s: World, step: Step)
    requires Inv(s) && Enabled(s, step)
    ensures Inv(Next(s, step))
  {
    match step
    case Plant => PlantKeepsInv(s);
    case Crash(w) => PhaseKeepsInv(s, w, Crashed);
    case Check(w, statFails) =>
      var next := if statFails || IsLink(s) then Done(Failed) else if s.name.Some? then Done(Skipped) else Making;
      PhaseKeepsInv(s, w, next);
    case Make(w, fails) =>
      if fails { PhaseKeepsInv(s, w, Done(Failed)); } else { MakeKeepsInv(s, w); }
    case Write(w, upTo) => WriteKeepsInv(s, w, upTo);
    case Close(w, fails) =>
      assert WriterOk(s, w);
      PhaseKeepsInv(s, w, if fails then Cleaning(Failed) else Linking);
    case Claim(w, linkFails) =>
      if linkFails { PhaseKeepsInv(s, w, Opening); }
      else if s.name.Some? { PhaseKeepsInv(s, w, Judging); }
      else { ClaimKeepsInv(s, w); }
    case Open(w, fails) => InPlaceKeepsInv(s, step);
    case Fill(w, upTo) => InPlaceKeepsInv(s, step);
    case Finish(w, fails) => InPlaceKeepsInv(s, step);
    case Clear(w, fails) => InPlaceKeepsInv(s, step);
    case Judge(w, statFails) => JudgeKeepsInv(s, w, statFails);
    case Clean(w) => CleanKeepsInv(s, w);
  }

  // ------------------------------------------------------------------------ the theorems

  /** Before anyone writes: the name is free, or holds a file or a link from before. */
  ghost predicate Fresh(s: World) {
    && s.winner == None && s.blind == {} && !s.cleared && (s.name.Some? ==> s.name.value < |s.inodes|)
    && forall w | 0 <= w < |s.writers| :: s.writers[w].phase.Checking? && s.writers[w].temp == None
  }

  lemma {:induction false} RunKeepsInv(s: World, steps: seq<Step>)
    requires Inv(s) && AllEnabled(s, steps)
    ensures Inv(Run(s, steps))
    decreases |steps|
  {
    if steps != [] {
      StepKeepsInv(s, steps[0]);
      RunKeepsInv(Next(s, steps[0]), steps[1..]);
    }
  }

  /** The name is taken, and nobody's file is in the making there. */
  ghost predicate Settled(s: World) {
    s.name.Some? && forall w | 0 <= w < |s.writers| :: !Busy(s.writers[w].phase)
  }

  lemma NameStays(s: World, step: Step)
    requires Inv(s) && Enabled(s, step) && Settled(s)
    ensures var s' := Next(s, step);
            && s'.name == s.name && |s.inodes| <= |s'.inodes| && s'.inodes[s.name.value] == s.inodes[s.name.value]
            && Settled(s') && s'.winner == s.winner
  {
    if step.Write? {
      assert WriterOk(s, step.w);
    }
  }

  /** What is published never changes: once nobody is filling it, neither the name nor a byte behind it,
      whoever else runs, fails or crashes. */
  lemma {:induction false} PublishedNeverChanges(s: World, steps: seq<Step>)
    requires Inv(s) && AllEnabled(s, steps) && Settled(s)
    ensures var s' := Run(s, steps);
            s'.name == s.name && s.name.value < |s'.inodes| && s'.inodes[s.name.value] == s.inodes[s.name.value]
    decreases |steps|
  {
    if steps != [] {
      NameStays(s, steps[0]);
      StepKeepsInv(s, steps[0]);
      PublishedNeverChanges(Next(s, steps[0]), steps[1..]);
    }
  }

  predicate Reported(s: World, w: nat, r: Report) { w < |s.writers| && s.writers[w].phase == Done(r) }

  /** A whole file and a link are settled. */
  lemma WholeIsSettled(s: World)
    requires Inv(s) && (s.winner.Some? || IsLink(s))
    ensures Settled(s)
  {
    forall w | 0 <= w < |s.writers| ensures !Busy(s.writers[w].phase) {
      assert WriterOk(s, w);
    }
  }

  /** Under any interleaving, with crashes, failures and planted links: a writer that reports
      created has its own bytes, whole and for good, at the name, and is the only one; one that reports
      skipped left a plain file there, unless its last look at the name failed, or a file that was
      being created in place has since been removed. */
  lemma ReportsAreTrue(start: World, steps: seq<Step>, w: nat)
    requires Fresh(start) && AllEnabled(start, steps)
    ensures var s := Run(start, steps);
            && (Reported(s, w, Created) ==> s.name.Some? && s.name.value < |s.inodes| && s.inodes[s.name.value] == Plain(s.writers[w].want))
            && (Reported(s, w, Created) ==> Settled(s) && forall v | Reported(s, v, Created) :: v == w)
            && (Reported(s, w, Skipped) ==> (s.name.Some? && (IsLink(s) ==> w in s.blind)) || s.cleared)
  {
    RunKeepsInv(start, steps);
    var s := Run(start, steps);
    assert w < |s.writers| ==> WriterOk(s, w);
    if Reported(s, w, Created) {
      WholeIsSettled(s);
    }
    forall v | Reported(s, w, Created) && Reported(s, v, Created) ensures v == w {
      assert WriterOk(s, v);
    }
  }

  // ------------------------------------------------ when a planted link is taken for a file

  /** The state after the first n steps of a run. */
  function StateAt(s: World, steps: seq<Step>, n: nat): World
    requires AllEnabled(s, steps) && n <= |steps|
    decreases n
  {
    if n == 0 then s else StateAt(Next(s, steps[0]), steps[1..], n - 1)
  }

  lemma {:induction false} StateStep(s: World, steps: seq<Step>, n: nat)
    requires AllEnabled(s, steps) && n < |steps|
    ensures Enabled(StateAt(s, steps, n), steps[n]) && StateAt(s, steps, n + 1) == Next(StateAt(s, steps, n), steps[n])
    decreases n
  {
    if n > 0 {
      StateStep(Next(s, steps[0]), steps[1..], n - 1);
    }
  }

  lemma {:induction false} StateIsRun(s: World, steps: seq<Step>)
    requires AllEnabled(s, steps)
    ensures StateAt(s, steps, |steps|) == Run(s, steps)
    decreases |steps|
  {
    if steps != [] {
      StateIsRun(Next(s, steps[0]), steps[1..]);
    }
  }

  lemma {:induction false} StateIsInv(s: World, steps: seq<Step>, n: nat)
    requires Inv(s) && AllEnabled(s, steps) && n <= |steps|
    ensures Inv(StateAt(s, steps, n))
    decreases n
  {
    if n > 0 {
      StateStep(s, steps, n - 1);
      StateIsInv(s, steps, n - 1);
      StepKeepsInv(StateAt(s, steps, n - 1), steps[n - 1]);
    }
  }

  /** By the n-th step a link has been planted. */
  ghost predicate Planted(steps: seq<Step>, i: nat, n: nat) { i < n <= |steps| && steps[i] == Plant }

  /** A writer that found the name free. */
  predicate FoundFree(p: Phase) { !p.Checking? && !p.Done? && !p.Crashed? }

  /** No writer's step makes a link, and none is removed. */
  lemma LinkWasThere(s: World, step: Step)
    requires Inv(s) && Enabled(s, step) && !step.Plant?
    ensures IsLink(Next(s, step)) <==> IsLink(s)
  {
    if step.Claim? || step.Write? || step.Fill? || step.Open? || step.Finish? || step.Clear? {
      assert WriterOk(s, step.w);
    }
    if IsLink(s) {
      WholeIsSettled(s);
      NameStays(s, step);
    }
  }

  lemma FoundFreeBefore(s: World, step: Step, w: nat)
    requires Inv(s) && Enabled(s, step) && !step.Plant? && w < |Next(s, step).writers|
    requires IsLink(Next(s, step)) && FoundFree(Next(s, step).writers[w].phase)
    ensures IsLink(s) && w < |s.writers| && FoundFree(s.writers[w].phase)
  {
    LinkWasThere(s, step);
  }

  /** Only a plant puts a link at a name some writer has found free. */
  lemma {:induction false} LinkIsPlanted(s: World, steps: seq<Step>, n: nat, w: nat) returns (i: nat)
    requires Fresh(s) && AllEnabled(s, steps) && n <= |steps| && w < |StateAt(s, steps, n).writers|
    requires FoundFree(StateAt(s, steps, n).writers[w].phase) && IsLink(StateAt(s, steps, n))
    ensures Planted(steps, i, n)
    decreases n
  {
    StateStep(s, steps, n - 1);
    StateIsInv(s, steps, n - 1);
    if steps[n - 1].Plant? {
      i := n - 1;
    } else {
      FoundFreeBefore(StateAt(s, steps, n - 1), steps[n - 1], w);
      i := LinkIsPlanted(s, steps, n - 1, w);
    }
  }

  lemma {:induction false} PlantStays(s: World, steps: seq<Step>, n: nat, i: nat)
    requires Inv(s) && AllEnabled(s, steps) && Planted(steps, i, n)
    ensures IsLink(StateAt(s, steps, n))
    decreases n
  {
    StateStep(s, steps, n - 1);
    StateIsInv(s, steps, n - 1);
    if i < n - 1 {
      PlantStays(s, steps, n - 1, i);
      if !steps[n - 1].Plant? {
        LinkWasThere(StateAt(s, steps, n - 1), steps[n - 1]);
      }
    }
  }

  predicate Skips(p: Phase) { p == Cleaning(Skipped) || p == Done(Skipped) }

  /** With this step the writer comes to report a link at the name as an archived message. */
  ghost predicate SkipsLinkAt(s: World, steps: seq<Step>, w: nat, k: nat)
    requires AllEnabled(s, steps) && k < |steps|
  {
    var before, after := StateAt(s, steps, k), StateAt(s, steps, k + 1);
    IsLink(before) && w < |before.writers| == |after.writers| && !Skips(before.writers[w].phase) && Skips(after.writers[w].phase)
  }

  /** A plant, and later this writer's judging of a race it lost, with a failing Lstat. */
  ghost predicate Blinded(steps: seq<Step>, w: nat, i: nat, k: nat) {
    i < k < |steps| && steps[i] == Plant && steps[k] == Judge(w, true)
  }

  lemma SkipIsBlinded(start: World, steps: seq<Step>, w: nat, k: nat) returns (i: nat)
    requires Fresh(start) && AllEnabled(start, steps) && k < |steps| && SkipsLinkAt(start, steps, w, k)
    ensures Blinded(steps, w, i, k)
  {
    StateStep(start, steps, k);
    StateIsInv(start, steps, k);
    JudgedBlind(StateAt(start, steps, k), steps[k], w);
    i := LinkIsPlanted(start, steps, k, w);
  }

  /** The one step that reports a link as skipped. */
  lemma JudgedBlind(s: World, step: Step, w: nat)
    requires Inv(s) && Enabled(s, step) && IsLink(s) && w < |s.writers|
    ensures !Skips(s.writers[w].phase) && Skips(Next(s, step).writers[w].phase) <==> step == Judge(w, true)
  {
    assert WriterOk(s, w);
  }

  lemma BlindedSkips(start: World, steps: seq<Step>, w: nat, i: nat, k: nat)
    requires Fresh(start) && AllEnabled(start, steps) && Blinded(steps, w, i, k)
    ensures SkipsLinkAt(start, steps, w, k)
  {
    StateStep(start, steps, k);
    StateIsInv(start, steps, k);
    PlantStays(start, steps, k, i);
    JudgedBlind(StateAt(start, steps, k), steps[k], w);
  }

  /** Exactly when a link at the name is reported as an archived message, over any run of any number
      of writers: someone planted it before this writer, having lost the claim, failed to look. */
  lemma LinkSkippedExactlyBlind(start: World, steps: seq<Step>, w: nat)
    requires Fresh(start) && AllEnabled(start, steps)
    ensures (exists k | 0 <= k < |steps| :: SkipsLinkAt(start, steps, w, k)) <==> exists i, k :: Blinded(steps, w, i, k)
  {
    if k: nat :| k < |steps| && SkipsLinkAt(start, steps, w, k) {
      var i := SkipIsBlinded(start, steps, w, k);
    }
    if i, k :| Blinded(steps, w, i, k) {
      BlindedSkips(start, steps, w, i, k);
    }
  }

  /** One writer of an empty message. */
  function OneWriter(name: Option<nat>, inodes: seq<Inode>, phase: Phase, temp: Option<nat>, blind: set<nat>): World {
    World(name, inodes, [Writer([], phase, temp)], None, blind, false)
  }

  /** Nothing fails and nobody interferes while a writer makes its temporary file. */
  function Writes(w: nat, want: Bytes): seq<Step> { [Check(w, false), Make(w, false), Write(w, |want|), Close(w, false)] }

  function LooksInVain(): seq<Step> { [Plant, Claim(0, false), Judge(0, true), Clean(0)] }

  /** The shortest such run: one writer, and a link planted after its check. */
  function BlindRun(): seq<Step> { Writes(0, []) + LooksInVain() }

  lemma WriterWrites()
    ensures var s := OneWriter(None, [], Checking, None, {});
            AllEnabled(s, Writes(0, [])) && Run(s, Writes(0, [])) == OneWriter(None, [Plain([])], Linking, Some(0), {})
  {
    var steps, empty := Writes(0, []), [Plain([])];
    RunsTo(OneWriter(None, empty, Writing(0), Some(0), {}), steps[3..], steps[3], OneWriter(None, empty, Linking, Some(0), {}), []);
    RunsTo(OneWriter(None, empty, Writing(0), Some(0), {}), steps[2..], steps[2], OneWriter(None, empty, Writing(0), Some(0), {}), steps[3..]);
    RunsTo(OneWriter(None, [], Making, None, {}), steps[1..], steps[1], OneWriter(None, empty, Writing(0), Some(0), {}), steps[2..]);
    RunsTo(OneWriter(None, [], Checking, None, {}), steps, steps[0], OneWriter(None, [], Making, None, {}), steps[1..]);
  }

  lemma WriterIsBeaten()
    ensures var s := OneWriter(None, [Plain([])], Linking, Some(0), {});
            AllEnabled(s, LooksInVain()[..2]) && Run(s, LooksInVain()[..2]) == OneWriter(Some(1), [Plain([]), Symlink], Judging, Some(0), {})
  {
    var steps, inodes := LooksInVain()[..2], [Plain([]), Symlink];
    RunsTo(OneWriter(Some(1), inodes, Linking, Some(0), {}), steps[1..], steps[1], OneWriter(Some(1), inodes, Judging, Some(0), {}), []);
    RunsTo(OneWriter(None, [Plain([])], Linking, Some(0), {}), steps, steps[0], OneWriter(Some(1), inodes, Linking, Some(0), {}), steps[1..]);
  }

  lemma WriterLooksInVain()
    ensures var s, inodes := OneWriter(None, [Plain([])], Linking, Some(0), {}), [Plain([]), Symlink];
            AllEnabled(s, LooksInVain()) && Run(s, LooksInVain()) == OneWriter(Some(1), inodes, Done(Skipped), None, {0})
  {
    var steps, inodes := LooksInVain()[2..], [Plain([]), Symlink];
    RunsTo(OneWriter(Some(1), inodes, Cleaning(Skipped), Some(0), {0}), steps[1..], steps[1], OneWriter(Some(1), inodes, Done(Skipped), None, {0}), []);
    RunsTo(OneWriter(Some(1), inodes, Judging, Some(0), {}), steps, steps[0], OneWriter(Some(1), inodes, Cleaning(Skipped), Some(0), {0}), steps[1..]);
    WriterIsBeaten();
    RunConcat(OneWriter(None, [Plain([])], Linking, Some(0), {}), LooksInVain()[..2], steps);
    assert LooksInVain()[..2] + steps == LooksInVain();
  }

  lemma BlindRunSkipsTheLink()
    ensures var s := OneWriter(None, [], Checking, None, {});
            && Fresh(s) && AllEnabled(s, BlindRun())
            && Reported(Run(s, BlindRun()), 0, Skipped) && IsLink(Run(s, BlindRun()))
  {
    WriterWrites();
    WriterLooksInVain();
    RunConcat(OneWriter(None, [], Checking, None, {}), Writes(0, []), LooksInVain());
  }

  lemma RunHead(s: World, steps: seq<Step>, first: Step, rest: seq<Step>)
    requires steps == [first] + rest && Enabled(s, first) && AllEnabled(Next(s, first), rest)
    ensures AllEnabled(s, steps) && Run(s, steps) == Run(Next(s, first), rest)
  {
    assert steps[1..] == rest;
  }

  /** The same, with the state the first step leads to. */
  lemma RunsTo(s: World, steps: seq<Step>, first: Step, next: World, rest: seq<Step>)
    requires steps == [first] + rest && Enabled(s, first) && Next(s, first) == next && AllEnabled(next, rest)
    ensures AllEnabled(s, steps) && Run(s, steps) == Run(next, rest)
  {
    RunHead(s, steps, first, rest);
  }

  lemma {:induction false} RunConcat(s: World, steps: seq<Step>, more: seq<Step>)
    requires AllEnabled(s, steps) && AllEnabled(Run(s, steps), more)
    ensures AllEnabled(s, steps + more) && Run(s, steps + more) == Run(Run(s, steps), more)
    decreases |steps|
  {
    if steps == [] {
      assert steps + more == more;
    } else {
      RunConcat(Next(s, steps[0]), steps[1..], more);
      RunHead(s, steps + more, steps[0], steps[1..] + more);
    }
  }

  // ------------------------------------------------------- when part of a file is at the name

  /** The name holds a file that no writer has completed. */
  predicate IsPart(s: World) { s.name.Some? && !IsLink(s) && s.winner.None? }

  /** A writer whose link was refused has created its file in place, and has since neither completed it
      nor removed it. */
  ghost predicate Unfinished(s: World, steps: seq<Step>, w: nat, i: nat, n: nat)
    requires AllEnabled(s, steps) && n <= |steps|
  {
    && i < n && steps[i] == Open(w, false) && StateAt(s, steps, i).name.None?
    && forall k | i < k < n :: steps[k] != Finish(w, false) && steps[k] != Clear(w, false)
  }

  predicate HasOpened(p: Phase) { Busy(p) || p in {Cleaning(Failed), Done(Failed), Crashed} }

  /** This writer's part of a file is at the name, and nobody else is at work there. */
  ghost predicate PartOf(s: World, w: nat) {
    && IsPart(s) && w < |s.writers| && HasOpened(s.writers[w].phase)
    && forall v | 0 <= v < |s.writers| && Busy(s.writers[v].phase) :: v == w
  }

  lemma PartStays(s: World, step: Step, w: nat)
    requires Inv(s) && Enabled(s, step) && PartOf(s, w) && step != Finish(w, false) && step != Clear(w, false)
    ensures PartOf(Next(s, step), w)
  {
    PartNameStays(s, step, w);
    WorkStays(s, step, w);
  }

  lemma PartNameStays(s: World, step: Step, w: nat)
    requires Inv(s) && Enabled(s, step) && PartOf(s, w) && step != Finish(w, false) && step != Clear(w, false)
    ensures IsPart(Next(s, step))
  {
    if step.Write? {
      assert WriterOk(s, step.w);
    }
  }

  lemma WorkStays(s: World, step: Step, w: nat)
    requires Enabled(s, step) && PartOf(s, w) && step != Finish(w, false) && step != Clear(w, false)
    ensures var s' := Next(s, step);
            && |s'.writers| == |s.writers| && HasOpened(s'.writers[w].phase)
            && forall v | 0 <= v < |s'.writers| && Busy(s'.writers[v].phase) :: v == w
  {
    var s' := Next(s, step);
    forall v | 0 <= v < |s'.writers| && v != w ensures !Busy(s'.writers[v].phase) {
      assert !Busy(s.writers[v].phase);
    }
  }

  lemma OpenLeavesPart(s: World, w: nat)
    requires Inv(s) && Enabled(s, Open(w, false)) && s.name.None?
    ensures PartOf(Next(s, Open(w, false)), w)
  {
    NobodyIsBusy(s);
  }

  /** Only an open leaves part of a file where there was none. */
  lemma PartComes(s: World, step: Step)
    requires Inv(s) && Enabled(s, step) && !IsPart(s) && IsPart(Next(s, step))
    ensures step.Open? && !step.fails && s.name.None?
  {
    if s.winner.Some? || IsLink(s) {
      WholeIsSettled(s);
      NameStays(s, step);
    }
  }

  lemma PartGoesOn(s: World, step: Step, w: nat)
    requires Inv(s) && Enabled(s, step) && IsPart(s) && IsPart(Next(s, step))
    ensures step != Finish(w, false) && step != Clear(w, false)
  {
  }

  lemma {:induction false} UnfinishedIsPart(s: World, steps: seq<Step>, w: nat, i: nat, n: nat)
    requires Inv(s) && AllEnabled(s, steps) && n <= |steps| && Unfinished(s, steps, w, i, n)
    ensures PartOf(StateAt(s, steps, n), w)
    decreases n
  {
    StateStep(s, steps, n - 1);
    StateIsInv(s, steps, n - 1);
    if i == n - 1 {
      OpenLeavesPart(StateAt(s, steps, i), w);
    } else {
      UnfinishedIsPart(s, steps, w, i, n - 1);
      PartStays(StateAt(s, steps, n - 1), steps[n - 1], w);
    }
  }

  lemma {:induction false} PartIsUnfinished(s: World, steps: seq<Step>, n: nat) returns (w: nat, i: nat)
    requires Inv(s) && AllEnabled(s, steps) && n <= |steps| && !IsPart(s) && IsPart(StateAt(s, steps, n))
    ensures Unfinished(s, steps, w, i, n)
    decreases n
  {
    StateStep(s, steps, n - 1);
    StateIsInv(s, steps, n - 1);
    var before := StateAt(s, steps, n - 1);
    if IsPart(before) {
      w, i := PartIsUnfinished(s, steps, n - 1);
      PartGoesOn(before, steps[n - 1], w);
    } else {
      PartComes(before, steps[n - 1]);
      w, i := steps[n - 1].w, n - 1;
    }
  }

  /** Exactly when part of a file is at a name that held none, over any run of any number of writers:
      one that was refused its link created the file in place, and died in it, or failed and could not
      remove it, or is still at it. */
  lemma PartialExactly(start: World, steps: seq<Step>)
    requires Inv(start) && AllEnabled(start, steps) && !IsPart(start)
    ensures IsPart(Run(start, steps)) <==> exists w, i :: Unfinished(start, steps, w, i, |steps|)
  {
    StateIsRun(start, steps);
    if IsPart(Run(start, steps)) {
      var w, i := PartIsUnfinished(start, steps, |steps|);
    }
    if w: nat, i: nat :| Unfinished(start, steps, w, i, |steps|) {
      UnfinishedIsPart(start, steps, w, i, |steps|);
    }
  }

  /** Otherwise such a name holds one writer's complete bytes as soon as it holds a file. */
  lemma NeverPartial(start: World, steps: seq<Step>)
    requires Inv(start) && AllEnabled(start, steps) && !IsPart(start)
    ensures var s := Run(start, steps);
            s.name.Some? && !IsLink(s) ==>
              || (exists w, i :: Unfinished(start, steps, w, i, |steps|))
              || (s.winner.Some? && s.winner.value < |s.writers| && s.name.value < |s.inodes|
                  && s.inodes[s.name.value] == Plain(s.writers[s.winner.value].want))
  {
    PartialExactly(start, steps);
    RunKeepsInv(start, steps);
  }

  function TwoWriters(name: Option<nat>, inodes: seq<Inode>, first: Phase, temp: Option<nat>, second: Phase, cleared: bool): World {
    World(name, inodes, [Writer([], first, temp), Writer([], second, None)], None, {}, cleared)
  }

  function CreatesInPlace(): seq<Step> { [Claim(0, true), Open(0, false), Check(1, false), Finish(0, true), Clear(0, false)] }

  /** Two writers of one message: the first is refused its link and creates the file in place, the second
      finds it there, and then the first fails and removes it. */
  function SkippedForNothing(): seq<Step> { Writes(0, []) + CreatesInPlace() }

  lemma FirstWrites()
    ensures var s := TwoWriters(None, [], Checking, None, Checking, false);
            AllEnabled(s, Writes(0, [])) && Run(s, Writes(0, [])) == TwoWriters(None, [Plain([])], Linking, Some(0), Checking, false)
  {
    var steps, empty := Writes(0, []), [Plain([])];
    var s1 := TwoWriters(None, [], Making, None, Checking, false);
    var s2 := TwoWriters(None, empty, Writing(0), Some(0), Checking, false);
    RunsTo(s2, steps[3..], steps[3], TwoWriters(None, empty, Linking, Some(0), Checking, false), []);
    RunsTo(s2, steps[2..], steps[2], s2, steps[3..]);
    RunsTo(s1, steps[1..], steps[1], s2, steps[2..]);
    RunsTo(TwoWriters(None, [], Checking, None, Checking, false), steps, steps[0], s1, steps[1..]);
  }

  lemma FirstGivesUp()
    ensures var s, inodes := TwoWriters(None, [Plain([])], Linking, Some(0), Checking, false), [Plain([]), Plain([])];
            AllEnabled(s, CreatesInPlace()) && Run(s, CreatesInPlace()) == TwoWriters(None, inodes, Cleaning(Failed), Some(0), Done(Skipped), true)
  {
    var steps, inodes := CreatesInPlace(), [Plain([]), Plain([])];
    var s1 := TwoWriters(None, [Plain([])], Opening, Some(0), Checking, false);
    var s2 := TwoWriters(Some(1), inodes, Filling(0), Some(0), Checking, false);
    var s3 := TwoWriters(Some(1), inodes, Filling(0), Some(0), Done(Skipped), false);
    var s4 := TwoWriters(Some(1), inodes, Clearing, Some(0), Done(Skipped), false);
    RunsTo(s4, steps[4..], steps[4], TwoWriters(None, inodes, Cleaning(Failed), Some(0), Done(Skipped), true), []);
    RunsTo(s3, steps[3..], steps[3], s4, steps[4..]);
    RunsTo(s2, steps[2..], steps[2], s3, steps[3..]);
    RunsTo(s1, steps[1..], steps[1], s2, steps[2..]);
    RunsTo(TwoWriters(None, [Plain([])], Linking, Some(0), Checking, false), steps, steps[0], s1, steps[1..]);
  }

  /** The second has reported the message as archived, and there is nothing at the name. */
  lemma SkippedForNothingLeavesNothing()
    ensures var s := TwoWriters(None, [], Checking, None, Checking, false);
            && Fresh(s) && AllEnabled(s, SkippedForNothing())
            && Reported(Run(s, SkippedForNothing()), 1, Skipped) && Run(s, SkippedForNothing()).name == None
  {
    FirstWrites();
    FirstGivesUp();
    RunConcat(TwoWriters(None, [], Checking, None, Checking, false), Writes(0, []), CreatesInPlace());
  }

  /** A writer by itself, with nothing failing. */
  function Solo(w: nat, want: Bytes): seq<Step> { Writes(w, want) + [Claim(w, false), Clean(w)] }

  /** A writer whose temporary file is the last inode, and holds this. */
  function WithTemp(s: World, w: nat, held: Bytes, phase: Phase): World
    requires w < |s.writers|
  {
    s.(inodes := s.inodes + [Plain(held)], writers := s.writers[w := Writer(s.writers[w].want, phase, Some(|s.inodes|))])
  }

  lemma SoloIsReady(s: World, w: nat)
    requires Inv(s) && w < |s.writers| && s.writers[w].phase.Checking? && s.name.None?
    ensures var want := s.writers[w].want;
            AllEnabled(s, Writes(w, want)) && Run(s, Writes(w, want)) == WithTemp(s, w, want, Linking)
  {
    var want := s.writers[w].want;
    var steps := Writes(w, want);
    assert want[..|want|] == want;
    assert WithTemp(s, w, [], Writing(0)).inodes[|s.inodes| := Plain(want)] == s.inodes + [Plain(want)];
    RunsTo(WithTemp(s, w, want, Writing(|want|)), steps[3..], steps[3], WithTemp(s, w, want, Linking), []);
    RunsTo(WithTemp(s, w, [], Writing(0)), steps[2..], steps[2], WithTemp(s, w, want, Writing(|want|)), steps[3..]);
    RunsTo(At(s, w, Making), steps[1..], steps[1], WithTemp(s, w, [], Writing(0)), steps[2..]);
    RunsTo(s, steps, steps[0], At(s, w, Making), steps[1..]);
  }

  /** Alone and undisturbed a writer does what the pipeline relies on: it skips a plain file, and
      otherwise publishes its bytes. */
  lemma SoloPublishes(s: World, w: nat)
    requires Inv(s) && w < |s.writers| && s.writers[w].phase.Checking?
    ensures s.name.Some? && !IsLink(s) ==> Next(s, Check(w, false)) == At(s, w, Done(Skipped))
    ensures s.name.None? ==>
              && AllEnabled(s, Solo(w, s.writers[w].want))
              && (var s' := Run(s, Solo(w, s.writers[w].want));
                  && |s'.writers| == |s.writers| && s'.writers[w].phase == Done(Created)
                  && s'.name.Some? && s'.name.value < |s'.inodes| && s'.inodes[s'.name.value] == Plain(s.writers[w].want))
  {
    if s.name.None? {
      var want := s.writers[w].want;
      var ready, claims := WithTemp(s, w, want, Linking), [Claim(w, false), Clean(w)];
      SoloIsReady(s, w);
      var claimed := Next(ready, claims[0]);
      RunHead(claimed, claims[1..], claims[1], []);
      RunHead(ready, claims, claims[0], claims[1..]);
      RunConcat(s, Writes(w, want), claims);
    }
  }
}
