/** The daemon's polling loop (cmd/mail-muncher/daemon.go). */
module Daemon {
  import opened Pipeline

  /** How a tick's cycle ended. */
  datatype Ended = Clean | LockHeld | CycleFailed

  /** One tick: how its cycle ended, what it reports, whether a shutdown was requested by its end,
      and whether one interrupts the sleep after it. */
  datatype Tick = Tick(ended: Ended, summaries: seq<Summary>, cancelled: bool, woken: bool)

  datatype ExitCode = Success | AnotherHolds

  /** What the loop keeps: totals, ticks so far, and the two counters it logs. */
  datatype Counters = Counters(totals: Summary, cycles: nat, failures: nat, locked: nat)

  function Plus(a: Summary, b: Summary): Summary {
    Summary(a.fetched + b.fetched, a.matched + b.matched, a.stored + b.stored, a.skipped + b.skipped,
            a.parseErrors + b.parseErrors, a.sinkErrors + b.sinkErrors, a.quarantined + b.quarantined, a.vanished + b.vanished)
  }

  function Total(summaries: seq<Summary>): Summary {
    if summaries == [] then ZERO else Plus(Total(summaries[..|summaries| - 1]), summaries[|summaries| - 1])
  }

  function Reported(ticks: seq<Tick>): seq<Summary> {
    if ticks == [] then [] else Reported(ticks[..|ticks| - 1]) + ticks[|ticks| - 1].summaries
  }

  /** The ticks since the last clean one. */
  function SinceClean(ticks: seq<Tick>): seq<Tick> {
    if ticks == [] || ticks[|ticks| - 1].ended.Clean? then []
    else SinceClean(ticks[..|ticks| - 1]) + [ticks[|ticks| - 1]]
  }

  function Count(ticks: seq<Tick>, ended: Ended): nat {
    if ticks == [] then 0
    else Count(ticks[..|ticks| - 1], ended) + if ticks[|ticks| - 1].ended == ended then 1 else 0
  }

  /** The tick the loop ends at: the first after which a shutdown shows, or a first one that finds
      the lock held. */
  predicate Ends(ticks: seq<Tick>, i: nat)
    requires i < |ticks|
  {
    ticks[i].cancelled || ticks[i].woken || (i == 0 && ticks[i].ended.LockHeld?)
  }

  lemma PlusAssoc(a: Summary, b: Summary, c: Summary)
    ensures Plus(Plus(a, b), c) == Plus(a, Plus(b, c)) && Plus(a, ZERO) == a
  {
  }

  lemma TotalStep(a: seq<Summary>, last: Summary)
    ensures Total(a + [last]) == Plus(Total(a), last)
  {
    assert (a + [last])[..|a|] == a;
  }

  lemma {:induction false} TotalConcat(a: seq<Summary>, b: seq<Summary>)
    ensures Total(a + b) == Plus(Total(a), Total(b))
    decreases |b|
  {
    if b == [] {
      assert a + b == a;
      PlusAssoc(Total(a), ZERO, ZERO);
    } else {
      var front, last := b[..|b| - 1], b[|b| - 1];
      assert a + b == (a + front) + [last];
      TotalStep(a + front, last);
      TotalConcat(a, front);
      PlusAssoc(Total(a), Total(front), last);
    }
  }

  lemma ReportedStep(ticks: seq<Tick>, tick: Tick)
    ensures Total(Reported(ticks + [tick])) == Plus(Total(Reported(ticks)), Total(tick.summaries))
  {
    assert (ticks + [tick])[..|ticks|] == ticks;
    TotalConcat(Reported(ticks), tick.summaries);
  }

  lemma CountStep(ticks: seq<Tick>, tick: Tick, ended: Ended)
    ensures Count(ticks + [tick], ended) == Count(ticks, ended) + if tick.ended == ended then 1 else 0
  {
    assert (ticks + [tick])[..|ticks|] == ticks;
  }

  lemma SinceCleanStep(ticks: seq<Tick>, tick: Tick)
    ensures SinceClean(ticks + [tick]) == if tick.ended.Clean? then [] else SinceClean(ticks) + [tick]
  {
    assert (ticks + [tick])[..|ticks|] == ticks;
  }

  /** The counters stand for these ticks. */
  ghost predicate Counted(c: Counters, ticks: seq<Tick>) {
    c.failures == Count(SinceClean(ticks), CycleFailed) && c.locked == Count(SinceClean(ticks), LockHeld)
  }

  /** Grades one tick. */
  method Grade(c: Counters, tick: Tick, ghost ticks: seq<Tick>) returns (next: Counters)
    requires Counted(c, ticks)
    ensures Counted(next, ticks + [tick]) && next.totals == c.totals && next.cycles == c.cycles
  {
    SinceCleanStep(ticks, tick);
    CountStep(SinceClean(ticks), tick, CycleFailed);
    CountStep(SinceClean(ticks), tick, LockHeld);
    match tick.ended
    case Clean => next := c.(failures := 0, locked := 0);
    case LockHeld => next := c.(locked := c.locked + 1);
    case CycleFailed => next := c.(failures := c.failures + 1);
  }

  ghost predicate Tallied(c: Counters, ticks: seq<Tick>) { c.totals == Total(Reported(ticks)) }

  lemma TalliedStep(c: Counters, next: Counters, tick: Tick, ticks: seq<Tick>)
    requires Tallied(c, ticks) && next.totals == Plus(c.totals, Total(tick.summaries))
    ensures Tallied(next, ticks + [tick])
  {
    ReportedStep(ticks, tick);
  }

  /** Counts one tick, and grades it unless a shutdown cut it short. */
  method TakeTick(c: Counters, tick: Tick, ghost ticks: seq<Tick>) returns (next: Counters)
    requires Tallied(c, ticks) && Counted(c, ticks)
    ensures next.cycles == c.cycles + 1 && Tallied(next, ticks + [tick])
    ensures !tick.cancelled ==> Counted(next, ticks + [tick])
  {
    var totals := Sum(c.totals, tick.summaries);
    next := c.(cycles := c.cycles + 1, totals := totals);
    if !tick.cancelled {
      next := Grade(next, tick, ticks);
    }
    TalliedStep(c, next, tick, ticks);
  }

  /** Takes the next tick. */
  method TakeNext(c: Counters, ticks: seq<Tick>) returns (next: Counters)
    requires c.cycles < |ticks| && Tallied(c, ticks[..c.cycles]) && Counted(c, ticks[..c.cycles])
    ensures next.cycles == c.cycles + 1 && Tallied(next, ticks[..next.cycles])
    ensures !ticks[c.cycles].cancelled ==> Counted(next, ticks[..next.cycles])
  {
    next := TakeTick(c, ticks[c.cycles], ticks[..c.cycles]);
    assert ticks[..c.cycles] + [ticks[c.cycles]] == ticks[..next.cycles];
  }

  /** The first n ticks are not ends. */
  predicate RunsOn(ticks: seq<Tick>, n: nat)
    requires n <= |ticks|
  {
    forall i | 0 <= i < n :: !Ends(ticks, i)
  }

  /** run: cycles until it is told to stop. It gives up only if its very first cycle finds the
      lock held; every other failure waits for the next tick. */
  method Run(ticks: seq<Tick>) returns (code: ExitCode, c: Counters)
    requires exists i | 0 <= i < |ticks| :: Ends(ticks, i)
    ensures 1 <= c.cycles <= |ticks| && RunsOn(ticks, c.cycles - 1) && Ends(ticks, c.cycles - 1)
    ensures code == AnotherHolds <==> ticks[0].ended.LockHeld? && !ticks[0].cancelled
    ensures Tallied(c, ticks[..c.cycles])
    ensures !ticks[c.cycles - 1].cancelled ==> Counted(c, ticks[..c.cycles])
  {
    c := Counters(ZERO, 0, 0, 0);
    ghost var end :| 0 <= end < |ticks| && Ends(ticks, end);
    while true
      invariant 0 <= c.cycles <= end && RunsOn(ticks, c.cycles)
      invariant Tallied(c, ticks[..c.cycles]) && Counted(c, ticks[..c.cycles])
      decreases |ticks| - c.cycles
    {
      var tick := ticks[c.cycles];
      c := TakeNext(c, ticks);
      assert c.cycles > 1 ==> !Ends(ticks, 0);
      if tick.cancelled {
        return Success, c;
      }
      if tick.ended.LockHeld? && c.cycles == 1 {
        return AnotherHolds, c;
      }
      if tick.woken {
        return Success, c;
      }
    }
  }

  /** Adds one tick's manifests to the running totals. */
  method Sum(totals: Summary, summaries: seq<Summary>) returns (sum: Summary)
    ensures sum == Plus(totals, Total(summaries))
  {
    sum := totals;
    var i := 0;
    while i < |summaries|
      invariant 0 <= i <= |summaries|
      invariant sum == Plus(totals, Total(summaries[..i]))
    {
      assert summaries[..i + 1][..i] == summaries[..i];
      sum := Plus(sum, summaries[i]);
      i := i + 1;
    }
    assert summaries[..i] == summaries;
  }

  lemma TickCounts(ticks: seq<Tick>, tick: Tick)
    requires !tick.ended.Clean?
    ensures Count(SinceClean(ticks + [tick]), LockHeld) == Count(SinceClean(ticks), LockHeld) + if tick.ended.LockHeld? then 1 else 0
  {
    SinceCleanStep(ticks, tick);
    CountStep(SinceClean(ticks), tick, LockHeld);
  }

  /** The counters do not count consecutive ticks, as their names have it: a skipped tick, a failed
      one and another skipped one add up to two skips in a row. */
  lemma SkipsNeedNotBeConsecutive(ticks: seq<Tick>, skip: Tick, fail: Tick)
    requires skip.ended.LockHeld? && fail.ended.CycleFailed?
    ensures Count(SinceClean(ticks + [skip] + [fail] + [skip]), LockHeld) == Count(SinceClean(ticks), LockHeld) + 2
  {
    TickCounts(ticks, skip);
    TickCounts(ticks + [skip], fail);
    TickCounts(ticks + [skip] + [fail], skip);
  }

  /** How many ticks of one kind a run of them ends with. */
  function Streak(ticks: seq<Tick>, ended: Ended): nat {
    if ticks == [] || ticks[|ticks| - 1].ended != ended then 0 else Streak(ticks[..|ticks| - 1], ended) + 1
  }

  lemma {:induction false} NoneCounted(ticks: seq<Tick>, ended: Ended)
    ensures Count(ticks, ended) == 0 <==> forall tick | tick in ticks :: tick.ended != ended
  {
    if ticks != [] {
      var front, last := ticks[..|ticks| - 1], ticks[|ticks| - 1];
      assert ticks == front + [last];
      NoneCounted(front, ended);
    }
  }

  /** One tick of this kind is never followed by one of another. */
  ghost predicate Unbroken(ticks: seq<Tick>, ended: Ended) {
    forall i, j | 0 <= i < j < |ticks| && ticks[i].ended == ended :: ticks[j].ended == ended
  }

  lemma UnbrokenStep(ticks: seq<Tick>, last: Tick, ended: Ended)
    ensures Unbroken(ticks + [last], ended)
       <==> Unbroken(ticks, ended) && (last.ended == ended || forall tick | tick in ticks :: tick.ended != ended)
  {
    var more := ticks + [last];
    if Unbroken(more, ended) {
      assert forall i | 0 <= i < |ticks| :: more[i] == ticks[i] && (ticks[i].ended == ended ==> more[|ticks|].ended == ended);
    }
  }

  /** Exactly when a counter is the number of consecutive ticks that its name says it is: skips, while
      no failed tick has followed a skipped one since the last clean tick, and the other way about. */
  lemma {:induction false} ConsecutiveExactly(ticks: seq<Tick>, ended: Ended)
    requires !ended.Clean?
    ensures Count(SinceClean(ticks), ended) == Streak(ticks, ended) <==> Unbroken(SinceClean(ticks), ended)
    ensures Count(SinceClean(ticks), ended) >= Streak(ticks, ended)
  {
    if ticks != [] && !ticks[|ticks| - 1].ended.Clean? {
      var front, last := ticks[..|ticks| - 1], ticks[|ticks| - 1];
      ConsecutiveExactly(front, ended);
      CountStep(SinceClean(front), last, ended);
      NoneCounted(SinceClean(front), ended);
      UnbrokenStep(SinceClean(front), last, ended);
    }
  }
}
