/** The two providers' runs under any interleaving of processes: they make one history, so what holds
    of every history holds of whatever the processes leave on disk. */
module Interleaving {
  import opened Text
  import opened Sync
  import opened Locks
  import PipelineTheorems
  import Gmail
  import Imap
  import ImapTheorems
  import ImapHistory
  import GmailHistory

  // --------------------------------------------------------------------- one history

  /** What a provider's history is made of: worlds, events, what an event comes to, a world's state
      file, a world with another, the events that are runs, those that save, and those allowed. */
  datatype Provider<!W(!new), !E(!new)> = Provider(
    next: (W, E) -> W, st: W -> State, with: (W, State) -> W, isRun: E -> bool, saved: (W, E) -> bool, allowed: (W, E) -> bool)

  /** Only a run that saves changes the state file. */
  ghost predicate Lawful<W(!new), E(!new)>(pr: Provider<W, E>) {
    && (forall w :: pr.with(w, pr.st(w)) == w)
    && (forall w, e :: (pr.isRun(e) && pr.saved(w, e)) || pr.st(pr.next(w, e)) == pr.st(w))
  }

  /** The processes, and everything else there is of one account: its mailboxes, its files, its record. */
  datatype Joint<W> = Joint(procs: World<State>, mail: W)

  /** A step of some process; one that ends a turn of this account's, with the run the turn was; or a
      change of the mailboxes between turns. */
  datatype Move<E> = Other(step: Step<State>) | Ended(step: Step<State>, run: E) | Remote(e: E)

  /** A process has loaded this account's state, and neither saved nor given up. */
  predicate InTurn(s: World<State>, p: nat, account: string) {
    (StageOf(s, p).Fetching? || StageOf(s, p).Saving?) && StageOf(s, p).account == account
  }

  predicate EndsTurn(s: World<State>, step: Step<State>, account: string) {
    (step.Rename? || step.Discard? || step.Crash?) && InTurn(s, step.p, account)
  }

  /** The world as the process sees it: with the state it loaded, whatever is on disk by now. */
  function Seen<W(!new), E(!new)>(pr: Provider<W, E>, j: Joint<W>, step: Step<State>): W {
    if step.Start? then j.mail
    else
      var stage := StageOf(j.procs, step.p);
      if stage.Fetching? || stage.Saving? then pr.with(j.mail, stage.loaded) else j.mail
  }

  /** A turn that ends by the rename was a run that saves, and what it saves is in the temporary file; one
      that ends in any other way was a run that does not. The mailboxes' changes during a turn are the
      run's own. */
  ghost predicate CanMove<W(!new), E(!new)>(pr: Provider<W, E>, account: string, j: Joint<W>, move: Move<E>) {
    match move
    case Other(step) => Enabled(j.procs, step) && !EndsTurn(j.procs, step, account)
    case Remote(e) => !pr.isRun(e) && pr.allowed(j.mail, e) && forall p :: !InTurn(j.procs, p, account)
    case Ended(step, e) =>
      var w := Seen(pr, j, step);
      && Enabled(j.procs, step) && EndsTurn(j.procs, step, account) && pr.isRun(e) && pr.allowed(w, e)
      && (if step.Rename? then pr.saved(w, e) && pr.st(pr.next(w, e)) == StageOf(j.procs, step.p).temp else !pr.saved(w, e))
  }

  /** The run works on the state its process loaded; what is on disk changes by a rename only. */
  function Moved<W(!new), E(!new)>(pr: Provider<W, E>, j: Joint<W>, move: Move<E>): Joint<W>
    requires !move.Remote? ==> Enabled(j.procs, move.step)
  {
    match move
    case Other(step) => j.(procs := Next(j.procs, step))
    case Remote(e) => j.(mail := pr.next(j.mail, e))
    case Ended(step, e) =>
      var w := pr.next(Seen(pr, j, step), e);
      Joint(Next(j.procs, step), if step.Rename? then w else pr.with(w, pr.st(j.mail)))
  }

  ghost predicate AllMove<W(!new), E(!new)>(pr: Provider<W, E>, account: string, j: Joint<W>, moves: seq<Move<E>>)
    decreases |moves|
  {
    moves != [] ==> CanMove(pr, account, j, moves[0]) && AllMove(pr, account, Moved(pr, j, moves[0]), moves[1..])
  }

  ghost function AfterMoves<W(!new), E(!new)>(pr: Provider<W, E>, account: string, j: Joint<W>, moves: seq<Move<E>>): Joint<W>
    requires AllMove(pr, account, j, moves)
    decreases |moves|
  {
    if moves == [] then j else AfterMoves(pr, account, Moved(pr, j, moves[0]), moves[1..])
  }

  /** The history the moves make. */
  function EventsOf<E>(moves: seq<Move<E>>): seq<E> {
    if moves == [] then []
    else
      var rest := EventsOf(moves[1..]);
      match moves[0]
      case Other(_) => rest
      case Ended(_, e) => [e] + rest
      case Remote(e) => [e] + rest
  }

  ghost predicate AllowedOf<W(!new), E(!new)>(pr: Provider<W, E>, w: W, events: seq<E>)
    decreases |events|
  {
    events != [] ==> pr.allowed(w, events[0]) && AllowedOf(pr, pr.next(w, events[0]), events[1..])
  }

  function AfterOf<W(!new), E(!new)>(pr: Provider<W, E>, w: W, events: seq<E>): W
    decreases |events|
  {
    if events == [] then w else AfterOf(pr, pr.next(w, events[0]), events[1..])
  }

  /** The locks hold, and the account's state file is the one the record is of. */
  ghost predicate Agrees<W(!new), E(!new)>(pr: Provider<W, E>, account: string, j: Joint<W>) {
    Inv(j.procs) && pr.st(j.mail) == OnDisk(j.procs, account)
  }

  /** A move comes to one event of the account's own history, or to none. */
  lemma MoveIsEvent<W(!new), E(!new)>(pr: Provider<W, E>, account: string, j: Joint<W>, move: Move<E>)
    requires Lawful(pr) && Agrees(pr, account, j) && CanMove(pr, account, j, move)
    ensures var k := Moved(pr, j, move);
            && Agrees(pr, account, k)
            && match move
               case Other(_) => k.mail == j.mail
               case Ended(_, e) => pr.allowed(j.mail, e) && k.mail == pr.next(j.mail, e)
               case Remote(e) => pr.allowed(j.mail, e) && k.mail == pr.next(j.mail, e)
  {
    if !move.Remote? {
      StepKeepsInv(j.procs, move.step);
      SavesAreAtomic(j.procs, move.step, account);
    }
    if move.Ended? {
      assert ProcOk(j.procs, move.step.p);
      assert Seen(pr, j, move.step) == j.mail;
    }
  }

  /** Under any interleaving of any number of processes, with crashes anywhere, the account's runs and
      the changes of its mailboxes are one history of its provider's, and the state file on disk is
      that history's. */
  lemma {:induction false} OneHistory<W(!new), E(!new)>(pr: Provider<W, E>, account: string, j: Joint<W>, moves: seq<Move<E>>)
    requires Lawful(pr) && Agrees(pr, account, j) && AllMove(pr, account, j, moves)
    ensures AllowedOf(pr, j.mail, EventsOf(moves))
    ensures AfterMoves(pr, account, j, moves).mail == AfterOf(pr, j.mail, EventsOf(moves))
    ensures Agrees(pr, account, AfterMoves(pr, account, j, moves))
    decreases |moves|
  {
    if moves != [] {
      var move, next, rest := moves[0], Moved(pr, j, moves[0]), EventsOf(moves[1..]);
      MoveIsEvent(pr, account, j, move);
      OneHistory(pr, account, next, moves[1..]);
      if !move.Other? {
        var e := if move.Ended? then move.run else move.e;
        assert EventsOf(moves) == [e] + rest && ([e] + rest)[1..] == rest;
      }
    }
  }

  // ------------------------------------------------------------- no mail is lost: IMAP

  ghost function OfImap(a: ImapHistory.Account): Provider<ImapHistory.World, ImapHistory.Event> {
    Provider((w, e) => ImapHistory.Next(w, e), (w: ImapHistory.World) => w.st, (w: ImapHistory.World, st) => w.(st := st),
             (e: ImapHistory.Event) => e.Run?, (w, e) => ImapHistory.Saved(w, e), (w, e) => ImapHistory.Allowed(a, w, e))
  }

  lemma {:induction false} ImapHistoryIs(a: ImapHistory.Account, w: ImapHistory.World, events: seq<ImapHistory.Event>)
    ensures AllowedOf(OfImap(a), w, events) <==> ImapHistory.AllAllowed(a, w, events)
    ensures AfterOf(OfImap(a), w, events) == ImapHistory.After(w, events)
    decreases |events|
  {
    if events != [] {
      ImapHistoryIs(a, ImapHistory.Next(w, events[0]), events[1..]);
    }
  }

  lemma ImapMovesAreHistory(a: ImapHistory.Account, j: Joint<ImapHistory.World>, moves: seq<Move<ImapHistory.Event>>)
    requires Agrees(OfImap(a), a.account, j) && AllMove(OfImap(a), a.account, j, moves)
    ensures ImapHistory.AllAllowed(a, j.mail, EventsOf(moves))
    ensures var last := AfterMoves(OfImap(a), a.account, j, moves);
            last.mail == ImapHistory.After(j.mail, EventsOf(moves)) && last.mail.st == OnDisk(last.procs, a.account)
  {
    OneHistory(OfImap(a), a.account, j, moves);
    ImapHistoryIs(a, j.mail, EventsOf(moves));
  }

  /** No message of an IMAP account is both undelivered and forgotten, whoever runs and whoever dies:
      what the state file on disk has passed has its fate kept or was outside a lookback, unless it was
      missed; and nothing is missed but at a run of the interleaving that was stopped and saved. */
  lemma ImapNothingElseIsForgotten(a: ImapHistory.Account, j: Joint<ImapHistory.World>, moves: seq<Move<ImapHistory.Event>>,
                                   mailbox: string, x: Imap.Wire)
    requires Fresh(j.procs) && ImapHistory.Fresh(a, j.mail) && OnDisk(j.procs, a.account) == NEVER_SYNCED
    requires AllMove(OfImap(a), a.account, j, moves)
    requires var last := AfterMoves(OfImap(a), a.account, j, moves);
             && mailbox in last.mail.boxes && x in last.mail.boxes[mailbox].live
             && ImapTheorems.Passed(last.mail.boxes, OnDisk(last.procs, a.account), Imap.Ref(mailbox, last.mail.boxes[mailbox].validity, x.uid))
    ensures var w := AfterMoves(OfImap(a), a.account, j, moves).mail;
            var r := Imap.Ref(mailbox, w.boxes[mailbox].validity, x.uid);
            var id := Imap.IdOf(a.account, r);
            && (id in w.fates || id in w.outside <==> r !in w.missed)
            && (id in w.fates ==> PipelineTheorems.FateKept(a.names, id, w.fates[id], w.files, w.parked))
            && (w.missed != {} ==> ImapHistory.StopsAndSaves(j.mail, EventsOf(moves)))
  {
    ImapMovesAreHistory(a, j, moves);
    ImapHistory.NothingElseIsForgotten(a, j.mail, EventsOf(moves), mailbox, x);
    ImapHistory.FreshIsInv(a, j.mail);
    ImapHistory.OnlyStopsMiss(a, j.mail, EventsOf(moves));
  }

  // ------------------------------------------------------------ no mail is lost: Gmail

  ghost function OfGmail(a: GmailHistory.Account): Provider<GmailHistory.World, GmailHistory.Event> {
    Provider((w, e) => GmailHistory.Next(w, e), (w: GmailHistory.World) => w.st, (w: GmailHistory.World, st) => w.(st := st),
             (e: GmailHistory.Event) => e.Run?, (w, e) => GmailHistory.Saved(w, e), (w, e) => GmailHistory.Allowed(a, w, e))
  }

  lemma {:induction false} GmailHistoryIs(a: GmailHistory.Account, w: GmailHistory.World, events: seq<GmailHistory.Event>)
    ensures AllowedOf(OfGmail(a), w, events) <==> GmailHistory.AllAllowed(a, w, events)
    ensures AfterOf(OfGmail(a), w, events) == GmailHistory.After(w, events)
    decreases |events|
  {
    if events != [] {
      GmailHistoryIs(a, GmailHistory.Next(w, events[0]), events[1..]);
    }
  }

  lemma GmailIsLawful(a: GmailHistory.Account)
    ensures Lawful(OfGmail(a))
  {
    forall w: GmailHistory.World, e: GmailHistory.Event | !GmailHistory.Saved(w, e) ensures GmailHistory.Next(w, e).st == w.st {
      GmailHistory.UnsavedSame(w, e);
    }
  }

  lemma GmailMovesAreHistory(a: GmailHistory.Account, j: Joint<GmailHistory.World>, moves: seq<Move<GmailHistory.Event>>)
    requires Agrees(OfGmail(a), a.account, j) && AllMove(OfGmail(a), a.account, j, moves)
    ensures GmailHistory.AllAllowed(a, j.mail, EventsOf(moves))
    ensures var last := AfterMoves(OfGmail(a), a.account, j, moves);
            last.mail == GmailHistory.After(j.mail, EventsOf(moves)) && last.mail.st == OnDisk(last.procs, a.account)
  {
    GmailIsLawful(a);
    OneHistory(OfGmail(a), a.account, j, moves);
    GmailHistoryIs(a, j.mail, EventsOf(moves));
  }

  /** Nor is any of a Gmail account's: what the history cursor on disk has passed is accounted for. */
  lemma GmailNothingIsForgotten(a: GmailHistory.Account, j: Joint<GmailHistory.World>, moves: seq<Move<GmailHistory.Event>>,
                                m: GmailHistory.Letter)
    requires Fresh(j.procs) && GmailHistory.Fresh(a, j.mail) && OnDisk(j.procs, a.account) == NEVER_SYNCED
    requires AllMove(OfGmail(a), a.account, j, moves)
    requires var last := AfterMoves(OfGmail(a), a.account, j, moves);
             m in last.mail.box.log && 0 < m.hid <= OnDisk(last.procs, a.account).historyId
    ensures var w, first := AfterMoves(OfGmail(a), a.account, j, moves).mail, GmailHistory.FirstScan(j.mail, EventsOf(moves));
            || m.id in w.vanished || m.id in w.excluded
            || (first.Some? && !GmailHistory.Matches(a, first.value, m))
            || (m.id in w.fates && (PipelineTheorems.FateKept(a.names, m.id, w.fates[m.id], w.files, w.parked) || PipelineTheorems.IsTorn(m.id, w.fates[m.id], w.torn)))
  {
    GmailMovesAreHistory(a, j, moves);
    GmailHistory.NothingIsForgotten(a, j.mail, EventsOf(moves), m);
  }

  // ------------------------------------------------------------------- the cursors alone

  lemma {:induction false} AllFetchWeakens<S(!new)>(
    s: World<S>, steps: seq<Step<S>>, account: string, made: (S, S) -> bool, le: (S, S) -> bool)
    requires AllEnabled(s, steps) && AllFetch(s, steps, account, made) && forall l, r | made(l, r) :: le(l, r)
    ensures AllFetch(s, steps, account, le)
    decreases |steps|
  {
    if steps != [] {
      AllFetchWeakens(Next(s, steps[0]), steps[1..], account, made, le);
    }
  }

  /** A saved run of an IMAP account, from a state its history can reach. */
  ghost predicate ImapRun(account: string, loaded: State, reached: State) {
    exists a: ImapHistory.Account, w: ImapHistory.World, e: ImapHistory.Event ::
      && a.account == account && ImapHistory.Inv(a, w) && ImapHistory.Allowed(a, w, e) && ImapHistory.Saved(w, e)
      && w.st == loaded && ImapHistory.Next(w, e).st == reached
  }

  lemma ImapRunMovesOn(account: string, loaded: State, reached: State, mailbox: string)
    requires ImapRun(account, loaded, reached)
    ensures ImapHistory.NoFurther(loaded, reached, mailbox)
  {
    var a: ImapHistory.Account, w: ImapHistory.World, e: ImapHistory.Event :|
      && a.account == account && ImapHistory.Inv(a, w) && ImapHistory.Allowed(a, w, e) && ImapHistory.Saved(w, e)
      && w.st == loaded && ImapHistory.Next(w, e).st == reached;
    ImapHistory.StepKeepsPassed(a, w, e, mailbox);
  }

  /** Whoever runs and whoever dies, no cursor of an IMAP account ever goes back. */
  lemma ImapCursorsOnlyAdvance(start: World<State>, steps: seq<Step<State>>, account: string, mailbox: string)
    requires Fresh(start) && AllEnabled(start, steps)
    requires AllFetch(start, steps, account, (l: State, r: State) => ImapRun(account, l, r))
    ensures ImapHistory.NoFurther(OnDisk(start, account), OnDisk(Run(start, steps), account), mailbox)
  {
    var le := (l: State, r: State) => ImapHistory.NoFurther(l, r, mailbox);
    forall l, r | ImapRun(account, l, r) ensures le(l, r) {
      ImapRunMovesOn(account, l, r, mailbox);
    }
    forall x, y, z | le(x, y) && le(y, z) ensures le(x, z) {
      ImapHistory.NoFurtherReaches(x, y, z, mailbox);
    }
    AllFetchWeakens(start, steps, account, (l: State, r: State) => ImapRun(account, l, r), le);
    PassedOnlyGrows(start, steps, account, le);
  }

  /** A saved run of a Gmail account, from a state its history can reach, that was not a recovery
      stopped on its way. */
  ghost predicate SteadyGmailRun(account: string, loaded: State, reached: State) {
    exists a: GmailHistory.Account, w: GmailHistory.World, e: GmailHistory.Event ::
      && a.account == account && GmailHistory.Inv(a, w) && GmailHistory.Allowed(a, w, e) && GmailHistory.Saved(w, e)
      && w.st == loaded && GmailHistory.Next(w, e).st == reached
      && !(GmailHistory.StoppedAndSaved(w, e) && GmailHistory.Expired(w, e))
  }

  lemma SteadyRunMovesOn(account: string, loaded: State, reached: State)
    requires SteadyGmailRun(account, loaded, reached)
    ensures loaded.historyId <= reached.historyId
  {
    var a: GmailHistory.Account, w: GmailHistory.World, e: GmailHistory.Event :|
      && a.account == account && GmailHistory.Inv(a, w) && GmailHistory.Allowed(a, w, e) && GmailHistory.Saved(w, e)
      && w.st == loaded && GmailHistory.Next(w, e).st == reached
      && !(GmailHistory.StoppedAndSaved(w, e) && GmailHistory.Expired(w, e));
    GmailHistory.CursorShrinksExactly(a, w, e);
  }

  /** The history cursor on disk never goes back but by a recovery from an expired cursor that is
      stopped and saved. */
  lemma GmailCursorOnlyAdvances(start: World<State>, steps: seq<Step<State>>, account: string)
    requires Fresh(start) && AllEnabled(start, steps)
    requires AllFetch(start, steps, account, (l: State, r: State) => SteadyGmailRun(account, l, r))
    ensures OnDisk(start, account).historyId <= OnDisk(Run(start, steps), account).historyId
  {
    var le := (l: State, r: State) => l.historyId <= r.historyId;
    forall l, r | SteadyGmailRun(account, l, r) ensures le(l, r) {
      SteadyRunMovesOn(account, l, r);
    }
    AllFetchWeakens(start, steps, account, (l: State, r: State) => SteadyGmailRun(account, l, r), le);
    PassedOnlyGrows(start, steps, account, le);
  }

  /** One process makes one such run and nothing else happens. */
  function OneRun(account: string, reached: State): seq<Step<State>> {
    [Start(OneShot), TakeCycle(0), Load(0, account), Fetch(0, reached), Rename(0)]
  }

  function Disk(account: string, st: State): World<State> { World(None, None, map[account := st], NEVER_SYNCED, []) }

  lemma OneRunWrites(account: string, before: State, reached: State)
    ensures var start, steps := Disk(account, before), OneRun(account, reached);
            Fresh(start) && AllEnabled(start, steps) && OnDisk(Run(start, steps), account) == reached
  {
    var start, steps := Disk(account, before), OneRun(account, reached);
    var s1 := Next(start, steps[0]);
    var s2 := Next(s1, steps[1]);
    var s3 := Next(s2, steps[2]);
    var s4 := Next(s3, steps[3]);
    RunHead(s4, steps[4..], steps[4], []);
    RunHead(s3, steps[3..], steps[3], steps[4..]);
    RunHead(s2, steps[2..], steps[2], steps[3..]);
    RunHead(s1, steps[1..], steps[1], steps[2..]);
    RunHead(start, steps, steps[0], steps[1..]);
  }

  /** The state file goes back from a cursor to none: the run is one an account can come to, and what
      it saves is what the protocol writes. */
  lemma StoppedRecoveryGoesBack(a: GmailHistory.Account, o: Gmail.Options, clock: nat -> int, account: string)
    requires GmailHistory.LooksBack(a, o)
    ensures var before, e := GmailHistory.Unmarked(), GmailHistory.StoppedRecovery(o, a.names, clock);
            var start, steps := Disk(account, before.st), OneRun(account, GmailHistory.Next(before, e).st);
            && GmailHistory.Inv(a, before) && GmailHistory.Allowed(a, before, e) && GmailHistory.StoppedAndSaved(before, e)
            && Fresh(start) && AllEnabled(start, steps)
            && OnDisk(Run(start, steps), account).historyId == 0 < OnDisk(start, account).historyId
  {
    var before, e := GmailHistory.Unmarked(), GmailHistory.StoppedRecovery(o, a.names, clock);
    GmailHistory.UnmarkedIsInv(a, o);
    GmailHistory.StoppedRecoveryRelapses(a, o, clock);
    GmailHistory.RecoveryStops(a, o, clock);
    GmailHistory.CursorShrinksExactly(a, before, e);
    OneRunWrites(account, before.st, GmailHistory.Next(before, e).st);
  }

  lemma RunHead(s: World<State>, steps: seq<Step<State>>, first: Step<State>, rest: seq<Step<State>>)
    requires steps == [first] + rest && Enabled(s, first) && AllEnabled(Next(s, first), rest)
    ensures AllEnabled(s, steps) && Run(s, steps) == Run(Next(s, first), rest)
  {
    assert steps[1..] == rest;
  }
}
