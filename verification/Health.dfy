/** What a saved state has passed was judged with every referenced list read in full, from the bytes
    of the lists to the mail on the server; and what a degraded cycle missed is offered again. */
module Health {
  import opened Text
  import opened Filter
  import opened FilterEngine
  import opened ListFiles
  import opened Pipeline
  import opened Runner
  import ImapTheorems
  import Offers
  import Imap
  import Gmail
  import ImapHistory
  import GmailHistory

  /** One cycle's surroundings: what it runs with, the lists its rules refer to, and the files on disk
      as it reads them. */
  datatype Cyclic = Cyclic(setup: Setup, refs: seq<FileRef>, files: string -> ListFiles.File)

  /** A run wired as the pipeline wires it: its lists are the snapshot of those files its cycle
      preloads, its rules and policies the process's own, and the references cover the rules. */
  ghost predicate WiredRun(c: Cyclic, account: string, cyc: Cycle) {
    && cyc.cfg == c.setup.For(account) && Collected(c.refs, c.setup.rules)
    && cyc.lists == Snapshot(c.refs, DiskOf(c.files, c.setup.libs))
  }

  /** A list some rule may consult could not be read in full: it is missing, cut short by a line too
      long, or has an entry refused. */
  ghost predicate SomethingShort(c: Cyclic) { exists ref | ref in AllFiles(c.setup.rules) :: Short(ref, c.files, c.setup.libs) }

  /** A cycle is degraded exactly when some list its rules may consult is short. */
  lemma DegradedExactly(c: Cyclic, account: string, cyc: Cycle)
    requires WiredRun(c, account, cyc)
    ensures cyc.lists.degraded != map[] <==> SomethingShort(c)
  {
    if cyc.lists.degraded != map[] {
      var path :| path in cyc.lists.degraded;
      DegradedMeansShort(c.refs, c.files, c.setup.libs, path);
    }
    if ref :| ref in AllFiles(c.setup.rules) && Short(ref, c.files, c.setup.libs) {
      DegradedMeansShort(c.refs, c.files, c.setup.libs, ref.path);
    }
  }

  /** A message settled in a cycle was routed by the first matching rule of lists whole by policy:
      unless its cycle was told to proceed regardless, nothing any rule could consult was short. */
  ghost predicate JudgedWhole(c: Cyclic, fate: Fate) {
    && (!c.setup.onDegraded.Proceed? ==> !SomethingShort(c))
    && (fate.outcome.Unmatched? ==>
          FirstMatch(c.setup.rules, fate.outcome.msg, Context(c.setup.libs, fate.outcome.now), fate.cyc.lists) == None)
    && (fate.outcome.Rendered? ==>
          FirstMatch(c.setup.rules, fate.outcome.msg, Context(c.setup.libs, fate.outcome.now), fate.cyc.lists) == Some(fate.outcome.rule))
  }

  /** What the pipeline does with a degraded cycle is what keeps its mail unpassed: it is not saved,
      whatever it settled. */
  lemma DegradedIsNotSaved(c: Cyclic, account: string, cyc: Cycle, ending: Ending)
    requires WiredRun(c, account, cyc) && SomethingShort(c) && !c.setup.onDegraded.Proceed?
    ensures Skips(cyc) || !Saves(cyc, ending)
  {
    DegradedExactly(c, account, cyc);
  }

  // -------------------------------------------------------------------------------- IMAP

  /** Every run of the history is wired, each in its own surroundings. */
  ghost predicate ImapWired(account: string, events: seq<ImapHistory.Event>, cs: seq<Cyclic>) {
    |cs| == |events| && forall i | 0 <= i < |events| && events[i].Run? :: WiredRun(cs[i], account, ImapHistory.CycleOf(events[i]))
  }

  /** A message the saved cursor has passed was judged with every list whole in the run that settled
      it, or was outside a resync's lookback, or was the one on offer at a graceful stop. */
  lemma ImapPassedInHealth(a: ImapHistory.Account, start: ImapHistory.World, events: seq<ImapHistory.Event>, cs: seq<Cyclic>,
                           mailbox: string, x: Imap.Wire)
    returns (i: nat)
    requires ImapHistory.Reachable(a, start, events) && ImapWired(a.account, events, cs)
    requires ImapHistory.Behind(ImapHistory.After(start, events), mailbox, x)
    ensures var w := ImapHistory.After(start, events);
            var r := Imap.Ref(mailbox, w.boxes[mailbox].validity, x.uid);
            var id := Imap.IdOf(a.account, r);
            || id in w.outside || r in w.missed
            || (id in w.fates && i < |events| && events[i].Run? && w.fates[id].cyc == ImapHistory.CycleOf(events[i])
                && JudgedWhole(cs[i], w.fates[id]))
  {
    var w := ImapHistory.After(start, events);
    var id := Imap.IdOf(a.account, Imap.Ref(mailbox, w.boxes[mailbox].validity, x.uid));
    ImapHistory.NothingElseIsForgotten(a, start, events, mailbox, x);
    i := 0;
    if id in w.fates {
      i := ImapHistory.FatesAreOfRuns(start, events, id);
      ImapHistory.FreshIsInv(a, start);
      ImapHistory.RunJudges(a, start, events, i, id);
      DegradedExactly(cs[i], a.account, ImapHistory.CycleOf(events[i]));
    }
  }

  /** And what a held or refused cycle did not settle is offered again by the next run that gets
      through to its mailbox. */
  lemma ImapMissedIsOfferedAgain(a: ImapHistory.Account, c: Cyclic, w: ImapHistory.World, e: ImapHistory.Event,
                                 next: ImapHistory.Event, k: nat, x: Imap.Wire)
    requires ImapHistory.Inv(a, w) && ImapHistory.Allowed(a, w, e) && ImapHistory.Allowed(a, ImapHistory.Next(w, e), next)
    requires e.Run? && WiredRun(c, a.account, ImapHistory.CycleOf(e)) && SomethingShort(c) && !c.setup.onDegraded.Proceed?
    requires ImapHistory.GetsThrough(ImapHistory.Next(w, e), next, k) && ImapHistory.FirstVisit(next.o, 0, k)
    requires var mb := next.o.mailboxes[k];
             && mb in w.boxes && x in w.boxes[mb].live && !ImapHistory.Behind(w, mb, x)
             && next.views(k).c.validity == w.boxes[mb].validity && x in next.views(k).c.live
    requires !ImapTheorems.LeftOut(next.o, next.o.mailboxes[k], next.session.visits(k),
                                   ImapHistory.StateAt(next.o, next.session, ImapHistory.Next(w, e).st, 0, k).value, x)
    ensures ImapHistory.Next(w, e).st == w.st
    ensures Imap.Raw(next.o, next.o.mailboxes[k], w.boxes[next.o.mailboxes[k]].validity, x)
            in Offers.ImapOffered(next.o, next.session, ImapHistory.Next(w, e).st)
  {
    DegradedIsNotSaved(c, a.account, ImapHistory.CycleOf(e), Imap.Grade(ImapHistory.FetchOf(w, e).end));
    assert ImapHistory.Next(w, e).st == w.st;
    ImapHistory.UnsavedIsOfferedAgain(a, w, e, next, k, x);
  }

  // ------------------------------------------------------------------------------- Gmail

  ghost predicate GmailWired(account: string, events: seq<GmailHistory.Event>, cs: seq<Cyclic>) {
    |cs| == |events| && forall i | 0 <= i < |events| && events[i].Run? :: WiredRun(cs[i], account, GmailHistory.CycleOf(events[i]))
  }

  /** A message the history cursor has passed was judged with every list whole, was deleted, was in
      Spam or Trash, or fails the query or the lookback of the first scan. */
  lemma GmailPassedInHealth(a: GmailHistory.Account, start: GmailHistory.World, events: seq<GmailHistory.Event>, cs: seq<Cyclic>,
                            m: GmailHistory.Letter)
    returns (i: nat)
    requires GmailHistory.Fresh(a, start) && GmailHistory.AllAllowed(a, start, events) && GmailWired(a.account, events, cs)
    requires var w := GmailHistory.After(start, events); m in w.box.log && 0 < m.hid <= w.st.historyId
    ensures var w := GmailHistory.After(start, events);
            || m.id in w.vanished || m.id in w.excluded
            || (GmailHistory.FirstScan(start, events).Some? && !GmailHistory.Matches(a, GmailHistory.FirstScan(start, events).value, m))
            || (m.id in w.fates && i < |events| && events[i].Run? && w.fates[m.id].cyc == GmailHistory.CycleOf(events[i])
                && JudgedWhole(cs[i], w.fates[m.id]))
  {
    var w := GmailHistory.After(start, events);
    GmailHistory.NothingIsForgotten(a, start, events, m);
    i := 0;
    if m.id in w.fates {
      i := GmailHistory.FatesAreOfRuns(start, events, m.id);
      GmailHistory.RunJudges(a, start, events, i, m.id);
      DegradedExactly(cs[i], a.account, GmailHistory.CycleOf(events[i]));
    }
  }

  /** And what a held or refused cycle did not settle the next run asks for again, unless it is a first
      scan that the message does not match. */
  lemma GmailMissedIsOfferedAgain(a: GmailHistory.Account, c: Cyclic, w: GmailHistory.World, e: GmailHistory.Event,
                                  next: GmailHistory.Event, m: GmailHistory.Letter)
    requires GmailHistory.Inv(a, w) && GmailHistory.Allowed(a, w, e) && GmailHistory.Allowed(a, GmailHistory.Next(w, e), next)
    requires e.Run? && WiredRun(c, a.account, GmailHistory.CycleOf(e)) && SomethingShort(c) && !c.setup.onDegraded.Proceed?
    requires m in w.box.log && m.id !in GmailHistory.Done(w)
    requires next.Run? && (GmailHistory.Incrementally(w.st, next.session) || GmailHistory.ScansInstead(w.st, next.session))
    requires m.id !in next.gone && !GmailHistory.Hidden(next, m.id)
    ensures GmailHistory.Next(w, e).st == w.st
    ensures GmailHistory.AsksFor(GmailHistory.Next(w, e), next, m.id)
            || (Gmail.FirstEver(w.st) && !GmailHistory.Matches(a, GmailHistory.ScanOf(next.o, w.st, next.session), m))
  {
    DegradedIsNotSaved(c, a.account, GmailHistory.CycleOf(e), Gmail.Grade(GmailHistory.FetchOf(w, e).end));
    GmailHistory.UnsavedIsOfferedAgain(a, w, e, next, m);
  }
}
