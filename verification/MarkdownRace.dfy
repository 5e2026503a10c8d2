/** Several processes storing one message's markdown at once (internal/sink/markdown.go). */
module MarkdownRace {

  /** Where a writer is in Store. `ours` is whether it found no attachments directory, so that
      cleaning up is its to do. */
  datatype Phase =
    | Checking
    | Planning
    | Making(ours: bool)
    | Writing(ours: bool, next: nat)
    | Publishing(ours: bool)
    | Created
    | Skipped
    | Failed
    | Crashed

  /** The message's place on disk: its attachments directory, which of its attachments are in it,
      and whether its document is published; and the writers. */
  datatype World = World(count: nat, dir: bool, files: set<nat>, doc: bool, writers: seq<Phase>)

  /** A writer's next operation, which may fail; or its death. */
  datatype Step = Go(w: nat, fails: bool) | Crash(w: nat)

  predicate Finished(p: Phase) { p.Created? || p.Skipped? || p.Failed? || p.Crashed? }

  predicate Enabled(s: World, step: Step) { step.w < |s.writers| && !Finished(s.writers[step.w]) }

  function At(s: World, w: nat, p: Phase): World
    requires w < |s.writers|
  {
    s.(writers := s.writers[w := p])
  }

  /** cleanup: the directory goes, with everything in it, if this writer's call made it. */
  function CleanUp(s: World, ours: bool): World { if ours then s.(dir := false, files := {}) else s }

  function Next(s: World, step: Step): World
    requires Enabled(s, step)
  {
    match step
    case Crash(w) => At(s, w, Crashed)
    case Go(w, fails) =>
      match s.writers[w]
      case Checking =>
        At(s, w, if fails then Failed else if s.doc then Skipped else if s.count == 0 then Publishing(false) else Planning)
      case Planning => At(s, w, if fails then Failed else Making(!s.dir))
      case Making(ours) => if fails then At(s, w, Failed) else At(s, w, Writing(ours, 0)).(dir := true)
      case Writing(ours, next) =>
        if next >= s.count then At(s, w, Publishing(ours))
        else if fails || !s.dir then At(CleanUp(s, ours), w, Failed)
        else At(s, w, Writing(ours, next + 1)).(files := s.files + {next})
      case Publishing(ours) =>
        if fails then At(CleanUp(s, ours), w, Failed)
        else if s.doc then At(s, w, Skipped)
        else At(s, w, Created).(doc := true)
      case _ => s
  }

  function Run(s: World, steps: seq<Step>): World
    requires AllEnabled(s, steps)
    decreases |steps|
  {
    if steps == [] then s else Run(Next(s, steps[0]), steps[1..])
  }

  predicate AllEnabled(s: World, steps: seq<Step>)
    decreases |steps|
  {
    steps != [] ==> Enabled(s, steps[0]) && AllEnabled(Next(s, steps[0]), steps[1..])
  }

  /** If the document is there, so are all its attachments. */
  ghost predicate Linked(s: World) { s.doc ==> forall i | 0 <= i < s.count :: i in s.files }

  ghost predicate Progressed(s: World, p: Phase) {
    match p
    case Writing(_, next) => next <= s.count && s.dir && forall i | 0 <= i < next :: i in s.files
    case Publishing(_) => forall i | 0 <= i < s.count :: i in s.files
    case _ => true
  }

  ghost predicate Inv(s: World) { Linked(s) && forall w | 0 <= w < |s.writers| :: Progressed(s, s.writers[w]) }

  // ------------------------------------------------------------- exactly when mail is lost

  /** The state after the first n steps of a run. */
  function StateAt(s: World, steps: seq<Step>, n: nat): World
    requires AllEnabled(s, steps) && n <= |steps|
    decreases n
  {
    if n == 0 then s else StateAt(Next(s, steps[0]), steps[1..], n - 1)
  }

  lemma {:induction false} StateStep(s: World, steps: seq<Step>, n: nat)
    requires AllEnabled(s, steps) && n < |steps|
    ensures Enabled(StateAt(s, steps, n), steps[n]) && StateAt(s, steps, n + 1) == Next(StateAt(s, steps, n), steps[n])
    ensures StateAt(s, steps, n).count == s.count
    decreases n
  {
    if n > 0 {
      StateStep(Next(s, steps[0]), steps[1..], n - 1);
    }
  }

  lemma {:induction false} StateIsRun(s: World, steps: seq<Step>)
    requires AllEnabled(s, steps)
    ensures StateAt(s, steps, |steps|) == Run(s, steps)
    decreases |steps|
  {
    if steps != [] {
      StateIsRun(Next(s, steps[0]), steps[1..]);
    }
  }

  /** A writer whose cleanup is its own fails to write an attachment, or to publish. */
  predicate Robs(s: World, step: Step) {
    step.Go? && step.w < |s.writers| && s.count > 0
    && match s.writers[step.w]
       case Writing(ours, next) => ours && next < s.count && (step.fails || !s.dir)
       case Publishing(ours) => ours && step.fails
       case _ => false
  }

  predicate Writes(s: World, step: Step, k: nat) {
    step.Go? && step.w < |s.writers| && !step.fails && s.dir && k < s.count
    && s.writers[step.w].Writing? && s.writers[step.w].next == k
  }

  predicate Publishes(s: World, step: Step) {
    step.Go? && step.w < |s.writers| && !step.fails && !s.doc && s.writers[step.w].Publishing?
  }

  /** The k-th attachment is not written again by any of the steps between i and j. */
  ghost predicate NotAgain(s: World, steps: seq<Step>, i: nat, j: nat, k: nat)
    requires AllEnabled(s, steps) && j <= |steps|
  {
    forall t | i < t < j :: !Writes(StateAt(s, steps, t), steps[t], k)
  }

  /** The i-th step takes the k-th attachment, which nobody writes again before the j-th. */
  ghost predicate Robbed(s: World, steps: seq<Step>, i: nat, j: nat, k: nat)
    requires AllEnabled(s, steps) && j <= |steps|
  {
    i < j && Robs(StateAt(s, steps, i), steps[i]) && k < s.count && NotAgain(s, steps, i, j, k)
  }

  /** A robbery is felt: by a document already up, or by one published after it that lacks what was
      taken. */
  ghost predicate Felt(s: World, steps: seq<Step>, i: nat, j: nat, k: nat)
    requires AllEnabled(s, steps) && j < |steps|
  {
    || (i == j && Robs(StateAt(s, steps, i), steps[i]) && StateAt(s, steps, i).doc)
    || (Robbed(s, steps, i, j, k) && Publishes(StateAt(s, steps, j), steps[j]))
  }

  /** A writer that has come past the k-th attachment. */
  ghost predicate Past(s: World, k: nat) {
    exists w | 0 <= w < |s.writers| :: IsPast(s.writers[w], k)
  }

  predicate IsPast(p: Phase, k: nat) { p.Publishing? || (p.Writing? && p.next > k) }

  lemma RobsTakes(s: World, step: Step)
    requires Enabled(s, step) && Robs(s, step)
    ensures Next(s, step).files == {} && Next(s, step).doc == s.doc
  {
  }

  /** A step that robs nobody takes nothing, and adds only what it writes. */
  lemma OthersTakeNothing(s: World, step: Step)
    requires Enabled(s, step) && !Robs(s, step)
    ensures s.files <= Next(s, step).files || s.count == 0
    ensures forall k: nat | k < s.count && k in Next(s, step).files :: k in s.files || Writes(s, step, k)
    ensures Next(s, step).doc == (s.doc || Publishes(s, step))
  {
  }

  lemma PastStep(s: World, step: Step, k: nat)
    requires Enabled(s, step) && k < s.count && Past(Next(s, step), k)
    ensures Past(s, k) || Writes(s, step, k)
  {
    var s' := Next(s, step);
    var w :| 0 <= w < |s'.writers| && IsPast(s'.writers[w], k);
    if !IsPast(s.writers[w], k) {
      assert w == step.w;
    }
  }

  ghost predicate Fresh(s: World) { Linked(s) && forall w | 0 <= w < |s.writers| :: s.writers[w].Checking? }

  /** An attachment some writer has come past is there, or was taken and not written again. */
  lemma {:induction false} PastOrRobbed(s: World, steps: seq<Step>, n: nat, k: nat) returns (i: nat)
    requires Fresh(s) && AllEnabled(s, steps) && n <= |steps| && k < s.count
    ensures Past(StateAt(s, steps, n), k) && k !in StateAt(s, steps, n).files ==> Robbed(s, steps, i, n, k)
    decreases n
  {
    i := 0;
    if n > 0 {
      StateStep(s, steps, n - 1);
      var before, step := StateAt(s, steps, n - 1), steps[n - 1];
      if Robs(before, step) {
        i := n - 1;
      } else if Past(StateAt(s, steps, n), k) && k !in StateAt(s, steps, n).files {
        OthersTakeNothing(before, step);
        PastStep(before, step, k);
        i := PastOrRobbed(s, steps, n - 1, k);
      }
    }
  }

  lemma {:induction false} StaysRobbed(s: World, steps: seq<Step>, i: nat, n: nat, k: nat)
    requires AllEnabled(s, steps) && n <= |steps| && Robbed(s, steps, i, n, k)
    ensures k !in StateAt(s, steps, n).files
    decreases n
  {
    StateStep(s, steps, n - 1);
    StateStep(s, steps, i);
    if i == n - 1 {
      RobsTakes(StateAt(s, steps, i), steps[i]);
    } else {
      StaysRobbed(s, steps, i, n - 1, k);
      var before, step := StateAt(s, steps, n - 1), steps[n - 1];
      if Robs(before, step) {
        RobsTakes(before, step);
      } else {
        OthersTakeNothing(before, step);
      }
    }
  }

  /** The first step of a run that leaves a document without an attachment. */
  lemma {:induction false} FirstLoss(s: World, steps: seq<Step>, n: nat) returns (j: nat)
    requires Fresh(s) && AllEnabled(s, steps) && n <= |steps| && !Linked(StateAt(s, steps, n))
    ensures j < n && Linked(StateAt(s, steps, j)) && !Linked(StateAt(s, steps, j + 1))
    decreases n
  {
    if Linked(StateAt(s, steps, n - 1)) {
      j := n - 1;
    } else {
      j := FirstLoss(s, steps, n - 1);
    }
  }

  lemma LossIsFelt(s: World, steps: seq<Step>, j: nat) returns (i: nat, k: nat)
    requires Fresh(s) && AllEnabled(s, steps) && j < |steps|
    requires Linked(StateAt(s, steps, j)) && !Linked(StateAt(s, steps, j + 1))
    ensures Felt(s, steps, i, j, k)
  {
    StateStep(s, steps, j);
    var before, step := StateAt(s, steps, j), steps[j];
    i, k := j, 0;
    if !Robs(before, step) {
      OthersTakeNothing(before, step);
      assert Publishes(before, step);
      k :| 0 <= k < s.count && k !in StateAt(s, steps, j + 1).files;
      assert IsPast(before.writers[step.w], k);
      i := PastOrRobbed(s, steps, j, k);
    }
  }

  lemma FeltIsLoss(s: World, steps: seq<Step>, i: nat, j: nat, k: nat)
    requires AllEnabled(s, steps) && j < |steps| && Felt(s, steps, i, j, k)
    ensures !Linked(StateAt(s, steps, j + 1))
  {
    StateStep(s, steps, j);
    var before, step, after := StateAt(s, steps, j), steps[j], StateAt(s, steps, j + 1);
    if i == j && Robs(before, step) && before.doc {
      RobsTakes(before, step);
      assert 0 !in after.files;
    } else {
      StaysRobbed(s, steps, i, j, k);
      OthersTakeNothing(before, step);
      assert k !in after.files;
    }
  }

  /** Any number of writers from the start, failing and dying where they may: a document comes to be
      without one of its attachments exactly when a writer that found no directory fails after
      another document is up, or fails before a document is published whose writer had come past an
      attachment that nobody has written again. */
  lemma LosesExactlyWhenRobbed(s: World, steps: seq<Step>)
    requires Fresh(s) && AllEnabled(s, steps)
    ensures (exists n | 0 <= n <= |steps| :: !Linked(StateAt(s, steps, n)))
       <==> exists i: nat, j: nat, k: nat :: j < |steps| && Felt(s, steps, i, j, k)
  {
    if n :| 0 <= n <= |steps| && !Linked(StateAt(s, steps, n)) {
      var j := FirstLoss(s, steps, n);
      var i, k := LossIsFelt(s, steps, j);
      assert Felt(s, steps, i, j, k);
    }
    if i: nat, j: nat, k: nat :| j < |steps| && Felt(s, steps, i, j, k) {
      FeltIsLoss(s, steps, i, j, k);
    }
  }

  // --------------------------------------------------------------------- races that are safe

  predicate Faultless(steps: seq<Step>) { forall step | step in steps && step.Go? :: !step.fails }

  lemma FaultlessKeepsInv(s: World, step: Step)
    requires Inv(s) && Enabled(s, step) && (step.Go? ==> !step.fails)
    ensures Inv(Next(s, step)) && s.files <= Next(s, step).files
  {
    var s' := Next(s, step);
    assert Progressed(s, s.writers[step.w]);
    forall w | 0 <= w < |s'.writers| ensures Progressed(s', s'.writers[w]) {
      assert Progressed(s, s.writers[w]);
    }
  }

  /** Any number of writers, in any order, crashing where they may: while no operation fails, a
      document on disk has every attachment it lists. */
  lemma {:induction false} FaultlessRaceIsSafe(s: World, steps: seq<Step>)
    requires Inv(s) && AllEnabled(s, steps) && Faultless(steps)
    ensures Inv(Run(s, steps))
    decreases |steps|
  {
    if steps != [] {
      FaultlessKeepsInv(s, steps[0]);
      FaultlessRaceIsSafe(Next(s, steps[0]), steps[1..]);
    }
  }

  /** A lone writer's state: what it relies on having done is done, and while it is at work there
      is no document. */
  ghost predicate AloneOk(s: World) {
    && Inv(s) && |s.writers| == 1
    && (s.writers[0].Planning? || s.writers[0].Making? || s.writers[0].Writing? || s.writers[0].Publishing? ==> !s.doc)
  }

  /** One writer, whatever fails: a document on disk has every attachment it lists. */
  lemma {:induction false} SingleWriterIsSafe(s: World, steps: seq<Step>)
    requires AloneOk(s) && AllEnabled(s, steps)
    ensures AloneOk(Run(s, steps)) && Linked(Run(s, steps))
    decreases |steps|
  {
    if steps != [] {
      var s' := Next(s, steps[0]);
      assert Progressed(s, s.writers[0]);
      assert Progressed(s', s'.writers[0]);
      SingleWriterIsSafe(s', steps[1..]);
    }
  }

  /** The race: both writers find no directory; one publishes; the other's write fails, and its
      cleanup takes the winner's attachments. */
  function Race(): seq<Step> {
    [Go(0, false), Go(1, false), Go(0, false), Go(1, false), Go(0, false), Go(1, false),
     Go(0, false), Go(0, false), Go(0, false), Go(1, true)]
  }

  /** The same race lost the other way: the failing writer's cleanup takes the attachments before the
      other publishes. */
  function EarlyRace(): seq<Step> {
    [Go(0, false), Go(1, false), Go(0, false), Go(1, false), Go(0, false), Go(1, false),
     Go(1, false), Go(1, false), Go(0, true), Go(1, false)]
  }

  lemma RunHead(s: World, steps: seq<Step>, first: Step, rest: seq<Step>)
    requires steps == [first] + rest && Enabled(s, first) && AllEnabled(Next(s, first), rest)
    ensures AllEnabled(s, steps) && Run(s, steps) == Run(Next(s, first), rest)
  {
    assert steps[1..] == rest;
  }

  lemma RaceStripsTheWinner()
    ensures var s := World(1, false, {}, false, [Checking, Checking]);
            && Fresh(s) && AllEnabled(s, Race())
            && !Linked(Run(s, Race())) && Run(s, Race()).writers == [Created, Failed]
  {
    var steps := Race();
    var s0 := World(1, false, {}, false, [Checking, Checking]);
    var s1 := Next(s0, steps[0]);
    var s2 := Next(s1, steps[1]);
    var s3 := Next(s2, steps[2]);
    var s4 := Next(s3, steps[3]);
    var s5 := Next(s4, steps[4]);
    var s6 := Next(s5, steps[5]);
    var s7 := Next(s6, steps[6]);
    var s8 := Next(s7, steps[7]);
    var s9 := Next(s8, steps[8]);
    assert s9 == World(1, true, {0}, true, [Created, Writing(true, 0)]);
    assert Next(s9, steps[9]) == World(1, false, {}, true, [Created, Failed]);
    RunHead(s9, steps[9..], steps[9], []);
    RunHead(s8, steps[8..], steps[8], steps[9..]);
    RunHead(s7, steps[7..], steps[7], steps[8..]);
    RunHead(s6, steps[6..], steps[6], steps[7..]);
    RunHead(s5, steps[5..], steps[5], steps[6..]);
    RunHead(s4, steps[4..], steps[4], steps[5..]);
    RunHead(s3, steps[3..], steps[3], steps[4..]);
    RunHead(s2, steps[2..], steps[2], steps[3..]);
    RunHead(s1, steps[1..], steps[1], steps[2..]);
    RunHead(s0, steps, steps[0], steps[1..]);
    assert 0 !in Run(s0, steps).files;
  }

  lemma RaceRobsTheLast()
    ensures var s := World(1, false, {}, false, [Checking, Checking]);
            && Fresh(s) && AllEnabled(s, EarlyRace())
            && !Linked(Run(s, EarlyRace())) && Run(s, EarlyRace()).writers == [Failed, Created]
  {
    var steps := EarlyRace();
    var s0 := World(1, false, {}, false, [Checking, Checking]);
    var s1 := Next(s0, steps[0]);
    var s2 := Next(s1, steps[1]);
    var s3 := Next(s2, steps[2]);
    var s4 := Next(s3, steps[3]);
    var s5 := Next(s4, steps[4]);
    var s6 := Next(s5, steps[5]);
    var s7 := Next(s6, steps[6]);
    var s8 := Next(s7, steps[7]);
    var s9 := Next(s8, steps[8]);
    assert s8 == World(1, true, {0}, false, [Writing(true, 0), Publishing(true)]);
    assert s9 == World(1, false, {}, false, [Failed, Publishing(true)]);
    assert Next(s9, steps[9]) == World(1, false, {}, true, [Failed, Created]);
    RunHead(s9, steps[9..], steps[9], []);
    RunHead(s8, steps[8..], steps[8], steps[9..]);
    RunHead(s7, steps[7..], steps[7], steps[8..]);
    RunHead(s6, steps[6..], steps[6], steps[7..]);
    RunHead(s5, steps[5..], steps[5], steps[6..]);
    RunHead(s4, steps[4..], steps[4], steps[5..]);
    RunHead(s3, steps[3..], steps[3], steps[4..]);
    RunHead(s2, steps[2..], steps[2], steps[3..]);
    RunHead(s1, steps[1..], steps[1], steps[2..]);
    RunHead(s0, steps, steps[0], steps[1..]);
    assert 0 !in Run(s0, steps).files;
  }
}
