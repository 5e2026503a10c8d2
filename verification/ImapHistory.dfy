/** An IMAP account over every history of runs: no message is both undelivered and forgotten,
    unless a graceful stop declined it. */
module ImapHistory {
  import opened Text
  import opened Mail
  import opened Filter
  import opened Sync
  import opened Pipeline
  import opened PipelineTheorems
  import opened RecordTheorems
  import opened Imap
  import opened ImapTheorems
  import opened Offers

  // ------------------------------------------------------------------- the system

  /** One account: its name, the configuration its files are named under, and the ids its mail will
      ever have. */
  datatype Account = Account(account: string, names: Config, ids: set<string>)

  /** Everything that outlives a run: the server, the state file, the delivered and parked files;
      and the record of it, kept by saved runs only. */
  datatype World = World(
    boxes: map<string, Box>, st: State, files: map<string, File>, parked: map<string, string>,
    fates: map<string, Fate>, outside: set<string>, missed: set<Ref>)

  /** A mailbox at the EXAMINE of a visit, and when that visit's SEARCH and FETCH run. */
  datatype View = View(b: Box, c: Box)

  /** The server changes by itself, or a run happens: its mailboxes and lookback, its rules and
      policies, its lists, its script of stops, clocks and failing writes, its connection, what each
      visit sees, the server after it, and whether the final save is lost to an error or a crash. */
  datatype Event =
    | ServerMoves(later: map<string, Box>)
    | Run(o: Options, cfg: Config, lists: Cache, script: Script, session: Session, views: nat -> View, later: map<string, Box>, saveFails: bool)

  function CycleOf(e: Event): Cycle
    requires e.Run?
  {
    Cycle(e.cfg, e.lists, e.script)
  }

  function FetchOf(w: World, e: Event): Fetched
    requires e.Run?
  {
    Fetch(e.o, e.session, w.st, CycleOf(e), Begin(w.files, w.parked))
  }

  /** Whether a run's state reaches the disk. */
  predicate Saved(w: World, e: Event) {
    e.Run? && !Skips(CycleOf(e)) && !e.saveFails && Saves(CycleOf(e), Grade(FetchOf(w, e).end))
  }

  /** The ids a fetch leaves behind its cursors because its lookback excludes them. */
  function OutsideFrom(o: Options, i: nat, s: Session, st: State, cyc: Cycle, p: Progress): set<string>
    requires i <= |o.mailboxes|
    decreases |o.mailboxes| - i
  {
    if i == |o.mailboxes| then {}
    else
      var out := Outside(o, o.mailboxes[i], s.visits(i), st, cyc, p);
      var f := FetchMailbox(o, o.mailboxes[i], s.visits(i), st, cyc, p);
      if f.end.Done? then out + OutsideFrom(o, i + 1, s, f.st, cyc, f.p) else out
  }

  function OutsideOf(w: World, e: Event): set<string>
    requires e.Run?
  {
    if e.session.connects then OutsideFrom(e.o, 0, e.session, w.st, CycleOf(e), Begin(w.files, w.parked)) else {}
  }

  /** A run's effect: its files stay; its state and record only if they were saved. */
  function Ran(w: World, later: map<string, Box>, f: Fetched, saved: bool, outside: set<string>): World {
    var ran := w.(boxes := later, files := f.p.files, parked := f.p.parked);
    if !saved then ran
    else
      ran.(st := f.st.(seen := MarkedAll(f.st.seen, f.p.accounted)), fates := w.fates + f.p.fates,
           outside := w.outside + outside, missed := w.missed + DeclinedRefs(f.end))
  }

  function Next(w: World, e: Event): World {
    if e.ServerMoves? then w.(boxes := e.later)
    else if Skips(CycleOf(e)) then w.(boxes := e.later)
    else Ran(w, e.later, FetchOf(w, e), Saved(w, e), OutsideOf(w, e))
  }

  /** The visits from the i-th on show the server truthfully as it moves from `boxes` to `later`,
      and every message they show has an id in play. */
  ghost predicate Honest(a: Account, o: Options, i: nat, s: Session, views: nat -> View, boxes: map<string, Box>, later: map<string, Box>)
    requires i <= |o.mailboxes|
    decreases |o.mailboxes| - i
  {
    if i == |o.mailboxes| then AllEvolve(boxes, later)
    else
      var mb, v, b, c := o.mailboxes[i], s.visits(i), views(i).b, views(i).c;
      && mb in boxes && Evolves(boxes[mb], b) && Evolves(b, c) && (v.examineFails || Shows(v, b, c))
      && (forall x | x in v.live :: WireId(o, mb, v, x) in a.ids)
      && Honest(a, o, i + 1, s, views, boxes[mb := c], later)
  }

  ghost predicate Allowed(a: Account, w: World, e: Event) {
    match e
    case ServerMoves(later) => AllEvolve(w.boxes, later)
    case Run(o, _, _, _, session, views, later, _) =>
      && o.account == a.account && LiveCycle(CycleOf(e), a.names)
      && Honest(a, o, 0, session, views, w.boxes, later) && AllEvolve(w.boxes, later)
  }

  function After(w: World, events: seq<Event>): World
    decreases |events|
  {
    if events == [] then w else After(Next(w, events[0]), events[1..])
  }

  ghost predicate AllAllowed(a: Account, w: World, events: seq<Event>)
    decreases |events|
  {
    events != [] ==> Allowed(a, w, events[0]) && AllAllowed(a, Next(w, events[0]), events[1..])
  }

  /** An account before its first run. */
  ghost predicate Fresh(a: Account, w: World) {
    && Named(a.names, a.account, a.ids)
    && w.st == NEVER_SYNCED && w.fates == map[] && w.outside == {} && w.missed == {}
    && (forall mb | mb in w.boxes :: ValidBox(w.boxes[mb]))
    && OwnFiles(a.names, a.ids, w.files)
  }

  // ------------------------------------------------------------- fetching keeps fates

  lemma {:induction false} ReadAdvances(
    o: Options, mailbox: string, v: Visit, lastUid: nat, reply: seq<Wire>, k: nat, highest: nat,
    seen: seq<string>, cyc: Cycle, p: Progress, ids: set<string>)
    requires k <= |reply| && !cyc.cfg.dryRun && FaithfulNames(cyc.cfg, ids) && InCycle(cyc, ids, p)
    requires forall w | w in reply :: WireId(o, mailbox, v, w) in ids
    ensures Advances(cyc, ids, p, ReadFrom(o, mailbox, v, lastUid, reply, k, highest, seen, cyc, p).p)
    decreases |reply| - k
  {
    if v.breakAt != Some(k) && k < |reply| {
      var w := reply[k];
      var raised, raw := Max(highest, w.uid), Raw(o, mailbox, v.validity, w);
      if w.uid == 0 || w.uid <= lastUid {
        ReadAdvances(o, mailbox, v, lastUid, reply, k + 1, highest, seen, cyc, p, ids);
      } else if raw.id in seen {
        ReadAdvances(o, mailbox, v, lastUid, reply, k + 1, raised, seen, cyc, p, ids);
      } else {
        assert raw.id == WireId(o, mailbox, v, w);
        HandleAdvances(cyc, p, raw, ids);
        var (q, verdict) := Handle(cyc, p, raw);
        if verdict == Accept {
          ReadAdvances(o, mailbox, v, lastUid, reply, k + 1, raised, seen, cyc, q, ids);
        }
      }
    }
  }

  lemma VisitAdvances(o: Options, mailbox: string, v: Visit, st: State, cyc: Cycle, p: Progress, ids: set<string>)
    requires !cyc.cfg.dryRun && FaithfulNames(cyc.cfg, ids) && InCycle(cyc, ids, p)
    requires v.examineFails || Ascending(v.live)
    requires forall w | w in v.live :: WireId(o, mailbox, v, w) in ids
    ensures Advances(cyc, ids, p, FetchMailbox(o, mailbox, v, st, cyc, p).p)
    ensures FetchMailbox(o, mailbox, v, st, cyc, p).st.seen == st.seen
  {
    var range := RangeOf(o, mailbox, v, st);
    if !v.examineFails && range.Ask? {
      AnswerFilters(v.live, range.ask);
      var lastUid := StartUid(v, st, mailbox);
      ReadAdvances(o, mailbox, v, lastUid, Reply(v, range), 0, lastUid, st.seen, cyc, p, ids);
    }
  }

  /** A whole fetch, however it ends: the record is sound, no delivered file is lost or changed,
      nothing parked is disturbed. */
  lemma {:induction false} FetchAdvances(
    a: Account, o: Options, i: nat, s: Session, views: nat -> View, boxes: map<string, Box>, later: map<string, Box>,
    st: State, cyc: Cycle, p: Progress)
    requires i <= |o.mailboxes| && Honest(a, o, i, s, views, boxes, later)
    requires !cyc.cfg.dryRun && FaithfulNames(cyc.cfg, a.ids) && InCycle(cyc, a.ids, p)
    ensures var f := FetchFrom(o, i, s, st, cyc, p); Advances(cyc, a.ids, p, f.p) && f.st.seen == st.seen
    decreases |o.mailboxes| - i
  {
    if i < |o.mailboxes| {
      var mb, v := o.mailboxes[i], s.visits(i);
      VisitAdvances(o, mb, v, st, cyc, p, a.ids);
      var f := FetchMailbox(o, mb, v, st, cyc, p);
      if f.end.Done? {
        FetchAdvances(a, o, i + 1, s, views, boxes[mb := views(i).c], later, f.st, cyc, f.p);
      }
    }
  }

  // ---------------------------------------------------------- fetching keeps the ledger

  lemma EvolvesReaches(b: Box, c: Box, d: Box)
    requires Evolves(b, c) && Evolves(c, d)
    ensures Evolves(b, d)
  {
  }

  lemma {:induction false} HonestReaches(
    a: Account, o: Options, i: nat, s: Session, views: nat -> View, boxes: map<string, Box>, later: map<string, Box>)
    requires i <= |o.mailboxes| && Honest(a, o, i, s, views, boxes, later)
    requires forall mb | mb in boxes :: ValidBox(boxes[mb])
    ensures AllEvolve(boxes, later)
    decreases |o.mailboxes| - i
  {
    if i < |o.mailboxes| {
      var mb := o.mailboxes[i];
      var next := boxes[mb := views(i).c];
      EvolvesReaches(boxes[mb], views(i).b, views(i).c);
      HonestReaches(a, o, i + 1, s, views, next, later);
      forall m | m in boxes ensures Evolves(boxes[m], later[m]) {
        if m == mb {
          EvolvesReaches(boxes[m], next[m], later[m]);
        }
      }
    }
  }

  /** The ids accounted for after a fetch: those before it, those it accepted, those it left out. */
  function DoneAfter(o: Options, i: nat, s: Session, st: State, cyc: Cycle, p: Progress, done: set<string>): set<string>
    requires i <= |o.mailboxes|
    decreases |o.mailboxes| - i
  {
    if i == |o.mailboxes| then done
    else
      var f := FetchMailbox(o, o.mailboxes[i], s.visits(i), st, cyc, p);
      var next := done + f.p.fates.Keys + Outside(o, o.mailboxes[i], s.visits(i), st, cyc, p);
      if f.end.Done? then DoneAfter(o, i + 1, s, f.st, cyc, f.p, next) else next
  }

  lemma {:induction false} DoneAfterIsUnion(o: Options, i: nat, s: Session, st: State, cyc: Cycle, p: Progress, done: set<string>)
    requires i <= |o.mailboxes| && p.fates.Keys <= done
    ensures DoneAfter(o, i, s, st, cyc, p, done) == done + FetchFrom(o, i, s, st, cyc, p).p.fates.Keys + OutsideFrom(o, i, s, st, cyc, p)
    decreases |o.mailboxes| - i
  {
    if i < |o.mailboxes| {
      var f := FetchMailbox(o, o.mailboxes[i], s.visits(i), st, cyc, p);
      if f.end.Done? {
        var out := Outside(o, o.mailboxes[i], s.visits(i), st, cyc, p);
        DoneAfterIsUnion(o, i + 1, s, f.st, cyc, f.p, done + f.p.fates.Keys + out);
        FetchGrows(o, i + 1, s, f.st, cyc, f.p);
      }
    }
  }

  lemma {:induction false} FetchKeepsLedger(
    a: Account, o: Options, i: nat, s: Session, views: nat -> View, boxes: map<string, Box>, later: map<string, Box>,
    st: State, cyc: Cycle, p: Progress, done: set<string>, missed: set<Ref>)
    requires i <= |o.mailboxes| && Honest(a, o, i, s, views, boxes, later)
    requires Ledger(o.account, boxes, st, done, missed) && p.fates.Keys <= done
    ensures var f := FetchFrom(o, i, s, st, cyc, p);
            Ledger(o.account, later, f.st, DoneAfter(o, i, s, st, cyc, p, done), missed + DeclinedRefs(f.end))
    decreases |o.mailboxes| - i
  {
    assert missed + {} == missed;
    if i == |o.mailboxes| {
      LedgerStays(o.account, boxes, later, st, done, missed);
      LastSyncIsNoCursor(o.account, later, st, done, missed, s.start);
    } else {
      var mb, v, c := o.mailboxes[i], s.visits(i), views(i).c;
      NextVisitKeepsLedger(o, mb, v, boxes, views(i).b, c, st, cyc, p, done, missed);
      var g := FetchMailbox(o, mb, v, st, cyc, p);
      var next := done + g.p.fates.Keys + Outside(o, mb, v, st, cyc, p);
      if g.end.Done? {
        FetchKeepsLedger(a, o, i + 1, s, views, boxes[mb := c], later, g.st, cyc, g.p, next, missed);
      } else {
        AfterStays(a, o, i + 1, s, views, boxes[mb := c], later, g.st, next, missed + DeclinedRefs(g.end));
      }
    }
  }

  lemma NextVisitKeepsLedger(o: Options, mb: string, v: Visit, boxes: map<string, Box>, b: Box, c: Box, st: State,
                             cyc: Cycle, p: Progress, done: set<string>, missed: set<Ref>)
    requires mb in boxes && Evolves(boxes[mb], b) && Evolves(b, c) && (v.examineFails || Shows(v, b, c))
    requires Ledger(o.account, boxes, st, done, missed) && p.fates.Keys <= done
    ensures var g := FetchMailbox(o, mb, v, st, cyc, p);
            Ledger(o.account, boxes[mb := c], g.st,
                   done + g.p.fates.Keys + Outside(o, mb, v, st, cyc, p), missed + DeclinedRefs(g.end))
  {
    var before := boxes[mb := b];
    LedgerStays(o.account, boxes, before, st, done, missed);
    VisitKeepsLedger(o, mb, v, before, c, st, cyc, p, done, missed);
    assert before[mb := c] == boxes[mb := c];
  }

  lemma AfterStays(a: Account, o: Options, i: nat, s: Session, views: nat -> View, after: map<string, Box>, later: map<string, Box>,
                   st: State, done: set<string>, missed: set<Ref>)
    requires i <= |o.mailboxes| && Honest(a, o, i, s, views, after, later) && Ledger(o.account, after, st, done, missed)
    ensures Ledger(o.account, later, st, done, missed)
  {
    HonestReaches(a, o, i, s, views, after, later);
    LedgerStays(o.account, after, later, st, done, missed);
  }

  lemma LastSyncIsNoCursor(account: string, boxes: map<string, Box>, st: State, done: set<string>, missed: set<Ref>, t: int)
    requires Ledger(account, boxes, st, done, missed)
    ensures Ledger(account, boxes, st.(lastSync := Some(t)), done, missed)
  {
    CursorsDecide(account, boxes, st, st.(lastSync := Some(t)), done, missed);
  }

  /** A ledger is about a state's cursors and its seen set, and nothing else in it. */
  lemma CursorsDecide(account: string, boxes: map<string, Box>, st: State, st': State, done: set<string>, missed: set<Ref>)
    requires Ledger(account, boxes, st, done, missed)
    requires st'.extra == st.extra && forall id | id in st'.seen :: id in done
    ensures Ledger(account, boxes, st', done, missed)
  {
    forall mb | mb in boxes ensures CursorSound(account, st', mb, boxes[mb], done, missed) {
      assert CursorSound(account, st, mb, boxes[mb], done, missed);
    }
    forall r | Passed(boxes, st, r) ensures Passed(boxes, st', r) {
    }
    forall id | id in done ensures PassedId(account, boxes, st', id) {
      var r :| id == IdOf(account, r) && Passed(boxes, st, r);
      assert Passed(boxes, st', r);
    }
  }

  /** Accepting never unaccepts. */
  lemma {:induction false} ReadGrows(
    o: Options, mailbox: string, v: Visit, lastUid: nat, reply: seq<Wire>, k: nat, highest: nat,
    seen: seq<string>, cyc: Cycle, p: Progress)
    requires k <= |reply|
    ensures p.fates.Keys <= ReadFrom(o, mailbox, v, lastUid, reply, k, highest, seen, cyc, p).p.fates.Keys
    decreases |reply| - k
  {
    if v.breakAt != Some(k) && k < |reply| {
      var w := reply[k];
      var raised, raw := Max(highest, w.uid), Raw(o, mailbox, v.validity, w);
      if w.uid == 0 || w.uid <= lastUid {
        ReadGrows(o, mailbox, v, lastUid, reply, k + 1, highest, seen, cyc, p);
      } else if raw.id in seen {
        ReadGrows(o, mailbox, v, lastUid, reply, k + 1, raised, seen, cyc, p);
      } else {
        HandleRecords(cyc, p, raw);
        var (q, verdict) := Handle(cyc, p, raw);
        if verdict == Accept {
          ReadGrows(o, mailbox, v, lastUid, reply, k + 1, raised, seen, cyc, q);
        }
      }
    }
  }

  lemma {:induction false} FetchGrows(o: Options, i: nat, s: Session, st: State, cyc: Cycle, p: Progress)
    requires i <= |o.mailboxes|
    ensures p.fates.Keys <= FetchFrom(o, i, s, st, cyc, p).p.fates.Keys
    decreases |o.mailboxes| - i
  {
    if i < |o.mailboxes| {
      var mb, v := o.mailboxes[i], s.visits(i);
      var range := RangeOf(o, mb, v, st);
      var lastUid := StartUid(v, st, mb);
      if !v.examineFails && range.Ask? {
        ReadGrows(o, mb, v, lastUid, Reply(v, range), 0, lastUid, st.seen, cyc, p);
      }
      var f := FetchMailbox(o, mb, v, st, cyc, p);
      if f.end.Done? {
        FetchGrows(o, i + 1, s, f.st, cyc, f.p);
      }
    }
  }

  // ----------------------------------------------------------- what a failed write tears

  /** Only the message a fetch was refused on can have had its quarantine copy torn. */
  ghost predicate TornByEnd(o: Options, p: Progress, q: Progress, end: End) {
    q.torn == p.torn || (end.Declined? && end.verdict == Refuse && q.torn == p.torn + {IdOf(o.account, end.ref)})
  }

  lemma {:induction false} ReadTears(
    o: Options, mailbox: string, v: Visit, lastUid: nat, reply: seq<Wire>, k: nat, highest: nat,
    seen: seq<string>, cyc: Cycle, p: Progress)
    requires k <= |reply|
    ensures var d := ReadFrom(o, mailbox, v, lastUid, reply, k, highest, seen, cyc, p); TornByEnd(o, p, d.p, d.end)
    decreases |reply| - k
  {
    if v.breakAt != Some(k) && k < |reply| {
      var w := reply[k];
      var raised, raw := Max(highest, w.uid), Raw(o, mailbox, v.validity, w);
      if w.uid == 0 || w.uid <= lastUid {
        ReadTears(o, mailbox, v, lastUid, reply, k + 1, highest, seen, cyc, p);
      } else if raw.id in seen {
        ReadTears(o, mailbox, v, lastUid, reply, k + 1, raised, seen, cyc, p);
      } else {
        HandleRecords(cyc, p, raw);
        var (q, verdict) := Handle(cyc, p, raw);
        if verdict == Accept {
          ReadTears(o, mailbox, v, lastUid, reply, k + 1, raised, seen, cyc, q);
        }
      }
    }
  }

  lemma {:induction false} FetchTears(o: Options, i: nat, s: Session, st: State, cyc: Cycle, p: Progress)
    requires i <= |o.mailboxes|
    ensures var f := FetchFrom(o, i, s, st, cyc, p); TornByEnd(o, p, f.p, f.end)
    decreases |o.mailboxes| - i
  {
    if i < |o.mailboxes| {
      var mb, v := o.mailboxes[i], s.visits(i);
      var range := RangeOf(o, mb, v, st);
      var lastUid := StartUid(v, st, mb);
      if !v.examineFails && range.Ask? {
        ReadTears(o, mb, v, lastUid, Reply(v, range), 0, lastUid, st.seen, cyc, p);
      }
      var f := FetchMailbox(o, mb, v, st, cyc, p);
      if f.end.Done? {
        FetchTears(o, i + 1, s, f.st, cyc, f.p);
      }
    }
  }

  /** A fetch declines only a message that the cursor it started from had not passed. */
  lemma {:induction false} DeclinedIsAbove(
    a: Account, o: Options, i: nat, s: Session, views: nat -> View, boxes: map<string, Box>, later: map<string, Box>,
    st: State, cyc: Cycle, p: Progress, done: set<string>, missed: set<Ref>)
    requires i <= |o.mailboxes| && Honest(a, o, i, s, views, boxes, later)
    requires Ledger(o.account, boxes, st, done, missed) && p.fates.Keys <= done
    ensures var f := FetchFrom(o, i, s, st, cyc, p);
            f.end.Declined? ==> f.end.ref !in missed && IdOf(o.account, f.end.ref) !in done
    decreases |o.mailboxes| - i
  {
    if i < |o.mailboxes| {
      var mb, v, c := o.mailboxes[i], s.visits(i), views(i).c;
      NextVisitKeepsLedger(o, mb, v, boxes, views(i).b, c, st, cyc, p, done, missed);
      var g := FetchMailbox(o, mb, v, st, cyc, p);
      if g.end.Done? {
        assert missed + {} == missed;
        DeclinedIsAbove(a, o, i + 1, s, views, boxes[mb := c], later, g.st, cyc, g.p,
                        done + g.p.fates.Keys + Outside(o, mb, v, st, cyc, p), missed);
      } else if g.end.Declined? {
        var before := boxes[mb := views(i).b];
        LedgerStays(o.account, boxes, before, st, done, missed);
        VisitDeclinesAbove(o, mb, v, before, c, st, cyc, p, done, missed);
      }
    }
  }

  lemma VisitDeclinesAbove(o: Options, mailbox: string, v: Visit, boxes: map<string, Box>, c: Box, st: State,
                           cyc: Cycle, p: Progress, done: set<string>, missed: set<Ref>)
    requires mailbox in boxes && Evolves(boxes[mailbox], c) && (v.examineFails || Shows(v, boxes[mailbox], c))
    requires Ledger(o.account, boxes, st, done, missed) && FetchMailbox(o, mailbox, v, st, cyc, p).end.Declined?
    ensures var r := FetchMailbox(o, mailbox, v, st, cyc, p).end.ref; r !in missed && IdOf(o.account, r) !in done
  {
    var d := Loop(o, mailbox, v, st, RangeOf(o, mailbox, v, st), cyc, p);
    assert CursorSound(o.account, st, mailbox, boxes[mailbox], done, missed);
    AskSettles(o, mailbox, v, boxes[mailbox], c, st, cyc, p);
    DeclinedIsFresh(o, mailbox, v, boxes, c, st, p, d, WritePair(st, mailbox, Dec(v.validity), Reached(v, d)));
    assert forall r | r in missed :: Passed(boxes, st, r) ==> PassedId(o.account, boxes, st, IdOf(o.account, r));
  }

  // ------------------------------------------------------------------ the invariant

  function Done(w: World): set<string> { w.fates.Keys + w.outside }

  ghost predicate Inv(a: Account, w: World) {
    && Named(a.names, a.account, a.ids) && SeenBounded(w.st.seen)
    && Ledger(a.account, w.boxes, w.st, Done(w), w.missed)
    && OwnFiles(a.names, a.ids, w.files) && Kept(a.names, a.ids, w.fates, w.files, w.parked, {})
  }

  lemma FreshIsInv(a: Account, w: World)
    requires Fresh(a, w)
    ensures Inv(a, w)
  {
    forall mb | mb in w.boxes ensures CursorSound(a.account, w.st, mb, w.boxes[mb], Done(w), w.missed) {
      assert StoredValidity(w.st, mb) == "" != Dec(w.boxes[mb].validity);
    }
  }

  lemma RunAdvances(a: Account, w: World, e: Event)
    requires Named(a.names, a.account, a.ids) && OwnFiles(a.names, a.ids, w.files) && Allowed(a, w, e) && e.Run?
    ensures var f := FetchOf(w, e);
            Advances(CycleOf(e), a.ids, Begin(w.files, w.parked), f.p) && f.st.seen == w.st.seen
  {
    var p := Begin(w.files, w.parked);
    NamesDecide(a.names, e.cfg, a.ids, w.files);
    assert InCycle(CycleOf(e), a.ids, p);
    if e.session.connects {
      FetchAdvances(a, e.o, 0, e.session, e.views, w.boxes, e.later, w.st, CycleOf(e), p);
    }
  }

  lemma RunKeepsLedger(a: Account, w: World, e: Event)
    requires Ledger(a.account, w.boxes, w.st, Done(w), w.missed) && Allowed(a, w, e) && e.Run?
    ensures var f := FetchOf(w, e);
            Ledger(a.account, e.later, f.st, Done(w) + f.p.fates.Keys + OutsideOf(w, e), w.missed + DeclinedRefs(f.end))
  {
    if e.session.connects {
      FetchKeepsLedger(a, e.o, 0, e.session, e.views, w.boxes, e.later, w.st, CycleOf(e), Begin(w.files, w.parked), Done(w), w.missed);
      DoneAfterIsUnion(e.o, 0, e.session, w.st, CycleOf(e), Begin(w.files, w.parked), Done(w));
    } else {
      LedgerStays(a.account, w.boxes, e.later, w.st, Done(w), w.missed);
      assert Done(w) + {} + {} == Done(w) && w.missed + {} == w.missed;
    }
  }

  /** Saving: the accepted ids the callback named are marked seen. */
  lemma SavingKeepsLedger(account: string, w: World, later: map<string, Box>, f: Fetched, outside: set<string>)
    requires Ledger(account, later, f.st, Done(w) + f.p.fates.Keys + outside, w.missed + DeclinedRefs(f.end))
    requires SeenBounded(f.st.seen) && forall id | id in f.p.accounted :: id in f.p.fates
    ensures var w' := Ran(w, later, f, true, outside);
            Ledger(account, w'.boxes, w'.st, Done(w'), w'.missed) && SeenBounded(w'.st.seen)
  {
    var w' := Ran(w, later, f, true, outside);
    assert Done(w') == Done(w) + f.p.fates.Keys + outside;
    MarkedAllKeeps(f.st.seen, f.p.accounted);
    CursorsDecide(account, later, f.st, w'.st, Done(w'), w'.missed);
  }

  lemma SavedRunKeepsLedger(a: Account, w: World, e: Event)
    requires Named(a.names, a.account, a.ids) && SeenBounded(w.st.seen) && OwnFiles(a.names, a.ids, w.files)
    requires Ledger(a.account, w.boxes, w.st, Done(w), w.missed) && Allowed(a, w, e) && Saved(w, e)
    ensures var w' := Next(w, e); Ledger(a.account, w'.boxes, w'.st, Done(w'), w'.missed) && SeenBounded(w'.st.seen)
  {
    RunAdvances(a, w, e);
    RunKeepsLedger(a, w, e);
    SavingKeepsLedger(a.account, w, e.later, FetchOf(w, e), OutsideOf(w, e));
  }

  /** A run tears no settled message's copy: it is offered none. */
  lemma RunTears(a: Account, w: World, e: Event)
    requires Ledger(a.account, w.boxes, w.st, Done(w), w.missed) && Allowed(a, w, e) && e.Run?
    ensures var f := FetchOf(w, e);
            TornByEnd(e.o, Begin(w.files, w.parked), f.p, f.end) && forall id | id in f.p.torn :: id !in w.fates
  {
    if e.session.connects {
      FetchTears(e.o, 0, e.session, w.st, CycleOf(e), Begin(w.files, w.parked));
      DeclinedIsAbove(a, e.o, 0, e.session, e.views, w.boxes, e.later, w.st, CycleOf(e), Begin(w.files, w.parked), Done(w), w.missed);
    }
  }

  lemma UntornKept(cfg: Config, ids: set<string>, fates: map<string, Fate>, files: map<string, File>,
                   parked: map<string, string>, torn: set<string>)
    requires Kept(cfg, ids, fates, files, parked, torn) && forall id | id in torn :: id !in fates
    ensures Kept(cfg, ids, fates, files, parked, {})
  {
  }

  lemma RecordAfterRun(names: Config, cyc: Cycle, ids: set<string>, w: World, later: map<string, Box>, f: Fetched, saved: bool,
                       outside: set<string>)
    requires SameNames(cyc.cfg, names)
    requires Kept(names, ids, w.fates, w.files, w.parked, {}) && Advances(cyc, ids, Begin(w.files, w.parked), f.p)
    requires if saved then f.p.torn == {} && !Skips(cyc) && !Holds(cyc) else forall id | id in f.p.torn :: id !in w.fates
    ensures var w' := Ran(w, later, f, saved, outside); Kept(names, ids, w'.fates, w'.files, w'.parked, {})
  {
    var p := f.p;
    if saved {
      SavedKeepsRecord(names, cyc, ids, w.fates, w.files, w.parked, {}, p);
      assert {} - p.fates.Keys == {};
    } else {
      UnsavedKeepsRecord(names, cyc, ids, w.fates, w.files, w.parked, {}, p);
      UntornKept(names, ids, w.fates, p.files, p.parked, {} + p.torn);
    }
  }

  lemma RunKeepsRecord(a: Account, w: World, e: Event)
    requires Named(a.names, a.account, a.ids) && Ledger(a.account, w.boxes, w.st, Done(w), w.missed)
    requires OwnFiles(a.names, a.ids, w.files) && Kept(a.names, a.ids, w.fates, w.files, w.parked, {})
    requires Allowed(a, w, e) && e.Run?
    ensures var w' := Next(w, e); OwnFiles(a.names, a.ids, w'.files) && Kept(a.names, a.ids, w'.fates, w'.files, w'.parked, {})
  {
    if !Skips(CycleOf(e)) {
      RunAdvances(a, w, e);
      RunTears(a, w, e);
      RecordAfterRun(a.names, CycleOf(e), a.ids, w, e.later, FetchOf(w, e), Saved(w, e), OutsideOf(w, e));
      NamesDecide(e.cfg, a.names, a.ids, FetchOf(w, e).p.files);
    }
  }

  lemma StepKeepsInv(a: Account, w: World, e: Event)
    requires Inv(a, w) && Allowed(a, w, e)
    ensures Inv(a, Next(w, e))
  {
    if Saved(w, e) {
      SavedRunKeepsLedger(a, w, e);
    } else {
      LedgerStays(a.account, w.boxes, e.later, w.st, Done(w), w.missed);
    }
    if e.Run? {
      RunKeepsRecord(a, w, e);
    }
  }

  lemma {:induction false} HistoryKeepsInv(a: Account, w: World, events: seq<Event>)
    requires Inv(a, w) && AllAllowed(a, w, events)
    ensures Inv(a, After(w, events))
    decreases |events|
  {
    if events != [] {
      StepKeepsInv(a, w, events[0]);
      HistoryKeepsInv(a, Next(w, events[0]), events[1..]);
    }
  }

  // ------------------------------------------------------------------- the theorems

  ghost predicate Reachable(a: Account, start: World, events: seq<Event>) {
    Fresh(a, start) && AllAllowed(a, start, events)
  }

  /** A message still on the server that the saved cursor will never ask for again. */
  ghost predicate Behind(w: World, mailbox: string, x: Wire) {
    mailbox in w.boxes && x in w.boxes[mailbox].live && Passed(w.boxes, w.st, Ref(mailbox, w.boxes[mailbox].validity, x.uid))
  }

  /** No message is both undelivered and forgotten: after any history of arrivals, expunges, new
      validities, runs, stops, aborts, dead connections and crashes, whatever the saved cursor has
      passed has its fate kept (on disk in every rendering its rule asks for, in quarantine, or
      rightly unmatched), or was outside the lookback of a resync, or else was missed; and the
      missed messages are neither of the first two. */
  lemma NothingElseIsForgotten(a: Account, start: World, events: seq<Event>, mailbox: string, x: Wire)
    requires Reachable(a, start, events)
    requires Behind(After(start, events), mailbox, x)
    ensures var w := After(start, events);
            var r := Ref(mailbox, w.boxes[mailbox].validity, x.uid);
            && (IdOf(a.account, r) in w.fates || IdOf(a.account, r) in w.outside <==> r !in w.missed)
            && (IdOf(a.account, r) in w.fates ==> FateKept(a.names, IdOf(a.account, r), w.fates[IdOf(a.account, r)], w.files, w.parked))
  {
    FreshIsInv(a, start);
    HistoryKeepsInv(a, start, events);
    var w := After(start, events);
    assert CursorSound(a.account, w.st, mailbox, w.boxes[mailbox], Done(w), w.missed);
    assert Accounted(a.account, Ref(mailbox, w.boxes[mailbox].validity, x.uid), Done(w), w.missed);
  }

  /** A run is stopped while one more message is on offer, and its state reaches the disk: known
      from its script, its policies and what it has to offer. */
  ghost predicate StoppedAndSaved(w: World, e: Event) {
    && e.Run? && !Skips(CycleOf(e)) && !Holds(CycleOf(e)) && !e.cfg.dryRun && !e.saveFails
    && StopsAmong(CycleOf(e), ImapOffered(e.o, e.session, w.st))
  }

  lemma StopsAreSaved(w: World, e: Event)
    ensures StoppedAndSaved(w, e) <==> Saved(w, e) && FetchOf(w, e).end.Declined?
    ensures StoppedAndSaved(w, e) ==>
              FetchOf(w, e).end.verdict == Stop
              && ImapOffered(e.o, e.session, w.st)[e.script.stopAt.value].id == IdOf(e.o.account, FetchOf(w, e).end.ref)
  {
    if e.Run? {
      ImapFetchHands(e.o, e.session, w.st, CycleOf(e), Begin(w.files, w.parked));
      StopsExactly(CycleOf(e), Begin(w.files, w.parked), ImapOffered(e.o, e.session, w.st));
    }
  }

  /** Some run of the history was stopped so. */
  ghost predicate StopsAndSaves(w: World, events: seq<Event>)
    decreases |events|
  {
    events != [] && (StoppedAndSaved(w, events[0]) || StopsAndSaves(Next(w, events[0]), events[1..]))
  }

  lemma {:induction false} MissedGrows(a: Account, w: World, events: seq<Event>)
    ensures w.missed <= After(w, events).missed
    decreases |events|
  {
    if events != [] {
      MissedGrows(a, Next(w, events[0]), events[1..]);
    }
  }

  /** The cursor is at the message declined, not at the last one accepted, so a history misses
      mail exactly when one of its runs is saved after a graceful stop declined a message. */
  lemma {:induction false} OnlyStopsMiss(a: Account, w: World, events: seq<Event>)
    requires Inv(a, w) && AllAllowed(a, w, events)
    ensures After(w, events).missed == w.missed <==> !StopsAndSaves(w, events)
    decreases |events|
  {
    if events != [] {
      var e, next := events[0], Next(w, events[0]);
      StepKeepsInv(a, w, e);
      OnlyStopsMiss(a, next, events[1..]);
      MissedGrows(a, next, events[1..]);
      StepMisses(a, w, e);
    }
  }

  lemma StepMisses(a: Account, w: World, e: Event)
    requires Inv(a, w) && Allowed(a, w, e)
    ensures Next(w, e).missed == w.missed <==> !StoppedAndSaved(w, e)
  {
    StopsAreSaved(w, e);
    if StoppedAndSaved(w, e) {
      var _ := DeclinedIsNew(a, w, e);
    } else if Saved(w, e) {
      assert w.missed + {} == w.missed;
    }
  }

  /** Such a run misses the message on offer when it was stopped, which no cursor had passed. */
  lemma DeclinedIsNew(a: Account, w: World, e: Event) returns (r: Ref)
    requires Inv(a, w) && Allowed(a, w, e) && StoppedAndSaved(w, e)
    ensures Next(w, e).missed == w.missed + {r} && r !in w.missed
    ensures IdOf(a.account, r) == ImapOffered(e.o, e.session, w.st)[e.script.stopAt.value].id && IdOf(a.account, r) !in Done(w)
  {
    StopsAreSaved(w, e);
    r := FetchOf(w, e).end.ref;
    DeclinedIsAbove(a, e.o, 0, e.session, e.views, w.boxes, e.later, w.st, CycleOf(e), Begin(w.files, w.parked), Done(w), w.missed);
  }

  lemma {:induction false} AfterConcat(a: Account, w: World, events: seq<Event>, more: seq<Event>)
    ensures After(w, events + more) == After(After(w, events), more)
    ensures AllAllowed(a, w, events + more) <==> AllAllowed(a, w, events) && AllAllowed(a, After(w, events), more)
    decreases |events|
  {
    if events == [] {
      assert events + more == more;
    } else {
      assert (events + more)[1..] == events[1..] + more;
      AfterConcat(a, Next(w, events[0]), events[1..], more);
    }
  }

  /** A missed message stays missed: however the history goes on, no run ever settles it. */
  lemma MissedForever(a: Account, start: World, events: seq<Event>, more: seq<Event>, r: Ref)
    requires Reachable(a, start, events + more) && r in After(start, events).missed
    ensures r in After(start, events + more).missed && IdOf(a.account, r) !in After(start, events + more).fates
  {
    AfterConcat(a, start, events, more);
    MissedGrows(a, After(start, events), more);
    FreshIsInv(a, start);
    HistoryKeepsInv(a, start, events + more);
    var w := After(start, events + more);
    assert IdOf(a.account, r) !in Done(w);
  }

  /** Without a saved stop, everything the cursor has passed is delivered, quarantined, rightly
      unmatched, or outside a lookback. */
  lemma NoStopNoLoss(a: Account, start: World, events: seq<Event>, mailbox: string, x: Wire)
    requires Reachable(a, start, events) && !StopsAndSaves(start, events)
    requires Behind(After(start, events), mailbox, x)
    ensures var w := After(start, events);
            var id := IdOf(a.account, Ref(mailbox, w.boxes[mailbox].validity, x.uid));
            id in w.outside || (id in w.fates && FateKept(a.names, id, w.fates[id], w.files, w.parked))
  {
    NothingElseIsForgotten(a, start, events, mailbox, x);
    FreshIsInv(a, start);
    OnlyStopsMiss(a, start, events);
  }

  // ------------------------------------------------------------ cursors never go back

  /** A mailbox's cursor in one state is no further than in another: none yet, the same, a later uid,
      or a later validity. */
  ghost predicate NoFurther(st: State, later: State, mailbox: string) {
    || (StoredValidity(st, mailbox) == StoredValidity(later, mailbox) && StoredUid(st, mailbox) == StoredUid(later, mailbox))
    || StoredValidity(st, mailbox) == ""
    || exists m: nat, n: nat :: Ahead(st, later, mailbox, m, n)
  }

  ghost predicate Ahead(st: State, later: State, mailbox: string, m: nat, n: nat) {
    && StoredValidity(st, mailbox) == Dec(m) && StoredValidity(later, mailbox) == Dec(n)
    && (m < n || (m == n && StoredUid(st, mailbox) <= StoredUid(later, mailbox)))
  }

  lemma NoFurtherReaches(s: State, t: State, u: State, mailbox: string)
    requires NoFurther(s, t, mailbox) && NoFurther(t, u, mailbox)
    ensures NoFurther(s, u, mailbox)
  {
    DecIsSomething(0);
    if m: nat, n: nat, m': nat, n': nat :| Ahead(s, t, mailbox, m, n) && Ahead(t, u, mailbox, m', n') {
      DecInjective(n, m');
      assert Ahead(s, u, mailbox, m, n');
    } else if m: nat, n: nat :| Ahead(s, t, mailbox, m, n) {
      DecIsSomething(n);
      assert Ahead(s, u, mailbox, m, n);
    } else if m: nat, n: nat :| Ahead(t, u, mailbox, m, n) {
      DecIsSomething(m);
      assert StoredValidity(s, mailbox) != "" ==> Ahead(s, u, mailbox, m, n);
    }
  }

  lemma DecIsSomething(n: nat)
    ensures Dec(n) != ""
  {
  }

  /** One finished visit. */
  lemma VisitMovesOn(o: Options, mailbox: string, v: Visit, boxes: map<string, Box>, c: Box, st: State, p: Progress, d: Delivered,
                     done: set<string>, missed: set<Ref>, other: string)
    requires Visited(o, mailbox, v, boxes, c, st, p, d, WritePair(st, mailbox, Dec(v.validity), Reached(v, d)))
    requires Ledger(o.account, boxes, st, done, missed)
    ensures NoFurther(st, WritePair(st, mailbox, Dec(v.validity), Reached(v, d)), other)
  {
    var next := WritePair(st, mailbox, Dec(v.validity), Reached(v, d));
    if other != mailbox {
      PairIsLocal(st, mailbox, Dec(v.validity), Reached(v, d), other);
    } else {
      CursorAfter(o, mailbox, v, c, st, d);
      assert CursorSound(o.account, st, mailbox, boxes[mailbox], done, missed);
      var stored := StoredValidity(st, mailbox);
      if stored != "" && Reached(v, d) > 0 {
        var m: nat :| m <= v.validity && stored == Dec(m);
        if stored == Dec(v.validity) {
          DecInjective(m, v.validity);
        }
        assert Ahead(st, next, mailbox, m, v.validity);
      }
    }
  }

  lemma PassedStaysWhileUnread(boxes: map<string, Box>, mailbox: string, b: Box, c: Box, st: State)
    requires mailbox in boxes && Evolves(boxes[mailbox], b) && Evolves(b, c) && forall mb | mb in boxes :: ValidBox(boxes[mb])
    ensures forall r | Passed(boxes, st, r) :: Passed(boxes[mailbox := c], st, r)
  {
    EvolvesReaches(boxes[mailbox], b, c);
    forall mb | mb in boxes ensures Evolves(boxes[mb], boxes[mailbox := c][mb]) {
    }
    forall r | Passed(boxes, st, r) ensures Passed(boxes[mailbox := c], st, r) {
      PassedStays(boxes, boxes[mailbox := c], st, r);
    }
  }

  lemma ReadVisitKeepsPassed(o: Options, mailbox: string, v: Visit, boxes: map<string, Box>, b: Box, c: Box, st: State, cyc: Cycle, p: Progress,
                             done: set<string>, missed: set<Ref>, other: string)
    requires mailbox in boxes && boxes[mailbox] == b && Evolves(b, c) && Shows(v, b, c)
    requires Ledger(o.account, boxes, st, done, missed) && !v.examineFails && !RangeOf(o, mailbox, v, st).SearchFailed?
    ensures var next := FetchMailbox(o, mailbox, v, st, cyc, p).st;
            NoFurther(st, next, other) && forall r | Passed(boxes, st, r) :: Passed(boxes[mailbox := c], next, r)
  {
    var range := RangeOf(o, mailbox, v, st);
    var d := Loop(o, mailbox, v, st, range, cyc, p);
    assert CursorSound(o.account, st, mailbox, b, done, missed);
    if range.Nothing? {
      NothingSettles(o, mailbox, v, b, c, st, cyc, p);
    } else {
      AskSettles(o, mailbox, v, b, c, st, cyc, p);
    }
    var next := WritePair(st, mailbox, Dec(v.validity), Reached(v, d));
    VisitMovesOn(o, mailbox, v, boxes, c, st, p, d, done, missed, other);
    forall r | Passed(boxes, st, r) ensures Passed(boxes[mailbox := c], next, r) {
      PassedKept(o, mailbox, v, boxes, c, st, p, d, next, r);
    }
  }

  /** What one visit passed it has passed for good, and its cursors only move on. */
  lemma VisitKeepsPassed(o: Options, mailbox: string, v: Visit, boxes: map<string, Box>, b: Box, c: Box, st: State, cyc: Cycle, p: Progress,
                         done: set<string>, missed: set<Ref>, other: string)
    requires mailbox in boxes && Evolves(boxes[mailbox], b) && Evolves(b, c) && (v.examineFails || Shows(v, b, c))
    requires Ledger(o.account, boxes, st, done, missed)
    ensures var next := FetchMailbox(o, mailbox, v, st, cyc, p).st;
            NoFurther(st, next, other) && forall r | Passed(boxes, st, r) :: Passed(boxes[mailbox := c], next, r)
  {
    if v.examineFails || RangeOf(o, mailbox, v, st).SearchFailed? {
      PassedStaysWhileUnread(boxes, mailbox, b, c, st);
    } else {
      var before := boxes[mailbox := b];
      LedgerStays(o.account, boxes, before, st, done, missed);
      assert before[mailbox := c] == boxes[mailbox := c];
      ReadVisitKeepsPassed(o, mailbox, v, before, b, c, st, cyc, p, done, missed, other);
      forall r | Passed(boxes, st, r) ensures Passed(before, st, r) {
        PassedStays(boxes, before, st, r);
      }
    }
  }

  /** A whole fetch, however it ends, over any mailbox list, repeats included. */
  lemma {:induction false} FetchKeepsPassed(
    a: Account, o: Options, i: nat, s: Session, views: nat -> View, boxes: map<string, Box>, later: map<string, Box>,
    st: State, cyc: Cycle, p: Progress, done: set<string>, missed: set<Ref>, other: string)
    requires i <= |o.mailboxes| && Honest(a, o, i, s, views, boxes, later)
    requires Ledger(o.account, boxes, st, done, missed) && p.fates.Keys <= done
    ensures var f := FetchFrom(o, i, s, st, cyc, p); NoFurther(st, f.st, other) && forall r | Passed(boxes, st, r) :: Passed(later, f.st, r)
    decreases |o.mailboxes| - i
  {
    var f := FetchFrom(o, i, s, st, cyc, p);
    if i == |o.mailboxes| {
      forall r | Passed(boxes, st, r) ensures Passed(later, f.st, r) {
        PassedStays(boxes, later, st, r);
      }
    } else {
      var mb, v, c := o.mailboxes[i], s.visits(i), views(i).c;
      var g, between := FetchMailbox(o, mb, v, st, cyc, p), boxes[mb := c];
      VisitKeepsPassed(o, mb, v, boxes, views(i).b, c, st, cyc, p, done, missed, other);
      NextVisitKeepsLedger(o, mb, v, boxes, views(i).b, c, st, cyc, p, done, missed);
      if g.end.Done? {
        assert missed + {} == missed;
        FetchKeepsPassed(a, o, i + 1, s, views, between, later, g.st, cyc, g.p,
                         done + g.p.fates.Keys + Outside(o, mb, v, st, cyc, p), missed, other);
        NoFurtherReaches(st, g.st, f.st, other);
      } else {
        HonestReaches(a, o, i + 1, s, views, between, later);
        forall r | Passed(between, g.st, r) ensures Passed(later, g.st, r) {
          PassedStays(between, later, g.st, r);
        }
      }
    }
  }

  /** A state's cursors are in its extras, and nothing else in it matters to them. */
  lemma SeenIsNoCursor(st: State, later: State, marked: State, boxes: map<string, Box>, mailbox: string)
    requires marked.extra == later.extra
    ensures NoFurther(st, later, mailbox) ==> NoFurther(st, marked, mailbox)
    ensures forall r | Passed(boxes, later, r) :: Passed(boxes, marked, r)
  {
    if m: nat, n: nat :| Ahead(st, later, mailbox, m, n) {
      assert Ahead(st, marked, mailbox, m, n);
    }
  }

  lemma SavedStepKeepsPassed(a: Account, w: World, e: Event, mailbox: string)
    requires Inv(a, w) && Allowed(a, w, e) && Saved(w, e) && e.session.connects
    ensures var w' := Next(w, e);
            NoFurther(w.st, w'.st, mailbox) && forall r | Passed(w.boxes, w.st, r) :: Passed(w'.boxes, w'.st, r)
  {
    var f := FetchOf(w, e);
    FetchKeepsPassed(a, e.o, 0, e.session, e.views, w.boxes, e.later, w.st, CycleOf(e), Begin(w.files, w.parked), Done(w), w.missed, mailbox);
    SeenIsNoCursor(w.st, f.st, Next(w, e).st, e.later, mailbox);
  }

  /** Whatever happens to an account, what its saved cursors have passed stays passed, and none of
      them goes back. */
  lemma StepKeepsPassed(a: Account, w: World, e: Event, mailbox: string)
    requires Inv(a, w) && Allowed(a, w, e)
    ensures var w' := Next(w, e);
            NoFurther(w.st, w'.st, mailbox) && forall r | Passed(w.boxes, w.st, r) :: Passed(w'.boxes, w'.st, r)
  {
    if Saved(w, e) && e.session.connects {
      SavedStepKeepsPassed(a, w, e, mailbox);
    } else {
      forall r | Passed(w.boxes, w.st, r) ensures Passed(Next(w, e).boxes, w.st, r) {
        PassedStays(w.boxes, Next(w, e).boxes, w.st, r);
      }
    }
  }

  // ---------------------------------------------------------------------- offered again

  /** The state a fetch comes to its k-th visit with, if the visits before it get through. */
  function StateAt(o: Options, s: Session, st: State, i: nat, k: nat): Option<State>
    requires i <= k <= |o.mailboxes|
    decreases k - i
  {
    if i == k then Some(st)
    else
      var next := VisitLeaves(o, o.mailboxes[i], s.visits(i), st);
      if next.None? then None else StateAt(o, s, next.value, i + 1, k)
  }

  /** The k-th visit is the first to its mailbox. */
  predicate FirstVisit(o: Options, i: nat, k: nat) {
    i <= k < |o.mailboxes| && forall j | i <= j < k :: o.mailboxes[j] != o.mailboxes[k]
  }

  lemma LeavesPair(o: Options, mailbox: string, v: Visit, st: State, other: string)
    requires VisitLeaves(o, mailbox, v, st).Some? && other != mailbox
    ensures var next := VisitLeaves(o, mailbox, v, st).value;
            StoredValidity(next, other) == StoredValidity(st, other) && StoredUid(next, other) == StoredUid(st, other) && next.seen == st.seen
  {
    var uid: nat :| VisitLeaves(o, mailbox, v, st).value == WritePair(st, mailbox, Dec(v.validity), uid);
    PairIsLocal(st, mailbox, Dec(v.validity), uid, other);
  }

  /** The first visit to a mailbox finds its cursor as it was stored, the mailbox as it is, and what it
      offers the fetch offers. */
  lemma {:induction false} ReachesVisit(
    a: Account, o: Options, i: nat, k: nat, s: Session, views: nat -> View, boxes: map<string, Box>, later: map<string, Box>, st: State)
    requires FirstVisit(o, i, k) && Honest(a, o, i, s, views, boxes, later) && StateAt(o, s, st, i, k).Some?
    ensures var mb, next := o.mailboxes[k], StateAt(o, s, st, i, k).value;
            && StoredValidity(next, mb) == StoredValidity(st, mb) && StoredUid(next, mb) == StoredUid(st, mb) && next.seen == st.seen
            && mb in boxes && Evolves(boxes[mb], views(k).b) && Evolves(views(k).b, views(k).c)
            && (s.visits(k).examineFails || Shows(s.visits(k), views(k).b, views(k).c))
            && forall raw | raw in VisitOffered(o, mb, s.visits(k), next) :: raw in ImapOfferedFrom(o, i, s, st)
    decreases k - i
  {
    if i < k {
      var next := VisitLeaves(o, o.mailboxes[i], s.visits(i), st).value;
      LeavesPair(o, o.mailboxes[i], s.visits(i), st, o.mailboxes[k]);
      ReachesVisit(a, o, i + 1, k, s, views, boxes[o.mailboxes[i] := views(i).c], later, next);
    }
  }

  lemma {:induction false} ReadOffers(o: Options, mailbox: string, v: Visit, lastUid: nat, reply: seq<Wire>, k: nat, seen: seq<string>, i: nat)
    requires k <= i < |reply| && v.breakAt == None && reply[i].uid > lastUid && Raw(o, mailbox, v.validity, reply[i]).id !in seen
    ensures Raw(o, mailbox, v.validity, reply[i]) in ReadOffered(o, mailbox, v, lastUid, reply, k, seen)
    decreases |reply| - k
  {
    if k < i {
      ReadOffers(o, mailbox, v, lastUid, reply, k + 1, seen, i);
    }
  }

  /** A visit that gets through offers every message above the cursor its lookback does not leave out. */
  lemma VisitOffersAll(o: Options, mailbox: string, v: Visit, b: Box, c: Box, st: State, x: Wire)
    requires Shows(v, b, c) && StartUid(v, st, mailbox) < b.next && !v.examineFails && !RangeOf(o, mailbox, v, st).SearchFailed?
    requires x in c.live && StartUid(v, st, mailbox) < x.uid < b.next && !LeftOut(o, mailbox, v, st, x)
    requires v.breakAt == None && WireId(o, mailbox, v, x) !in st.seen
    ensures Raw(o, mailbox, v.validity, x) in VisitOffered(o, mailbox, v, st)
  {
    RequestCovers(o, mailbox, v, b, c, st, x);
    var reply := Reply(v, RangeOf(o, mailbox, v, st));
    var i :| 0 <= i < |reply| && reply[i] == x;
    ReadOffers(o, mailbox, v, StartUid(v, st, mailbox), reply, 0, st.seen, i);
  }

  /** The k-th visit of a run gets through, as do those before it. */
  predicate GetsThrough(w: World, e: Event, k: nat) {
    && e.Run? && e.session.connects && k < |e.o.mailboxes| && StateAt(e.o, e.session, w.st, 0, k).Some?
    && (var v := e.session.visits(k);
        !v.examineFails && v.breakAt == None
        && !RangeOf(e.o, e.o.mailboxes[k], v, StateAt(e.o, e.session, w.st, 0, k).value).SearchFailed?)
  }

  /** Mail above the cursor, still there and under the same validity, is offered by the next run that
      gets through to its mailbox, unless a resync's lookback leaves it out. */
  lemma AboveIsOffered(a: Account, w: World, e: Event, k: nat, x: Wire)
    requires Inv(a, w) && Allowed(a, w, e) && GetsThrough(w, e, k) && FirstVisit(e.o, 0, k)
    requires var mb := e.o.mailboxes[k];
             && mb in w.boxes && x in w.boxes[mb].live && !Behind(w, mb, x)
             && e.views(k).c.validity == w.boxes[mb].validity && x in e.views(k).c.live
    requires !LeftOut(e.o, e.o.mailboxes[k], e.session.visits(k), StateAt(e.o, e.session, w.st, 0, k).value, x)
    ensures Raw(e.o, e.o.mailboxes[k], w.boxes[e.o.mailboxes[k]].validity, x) in ImapOffered(e.o, e.session, w.st)
  {
    var mb, v, st := e.o.mailboxes[k], e.session.visits(k), StateAt(e.o, e.session, w.st, 0, k).value;
    var b := w.boxes[mb];
    ReachesVisit(a, e.o, 0, k, e.session, e.views, w.boxes, e.later, w.st);
    assert CursorSound(a.account, w.st, mb, b, Done(w), w.missed);
    var id := WireId(e.o, mb, v, x);
    if id in w.st.seen {
      var r :| id == IdOf(a.account, r) && Passed(w.boxes, w.st, r);
      IdOfInjective(a.account, RefOf(mb, v, x), r);
    }
    VisitOffersAll(e.o, mb, v, e.views(k).b, e.views(k).c, st, x);
  }

  lemma UnsavedKeeps(w: World, e: Event)
    requires !Saved(w, e)
    ensures Next(w, e).st == w.st && Next(w, e).fates == w.fates
  {
  }

  /** What a visit of the next run still shows was there all along. */
  lemma StillThere(a: Account, w: World, e: Event, next: Event, k: nat, x: Wire)
    requires Allowed(a, w, e) && Allowed(a, Next(w, e), next)
    requires next.Run? && k < |next.o.mailboxes| && FirstVisit(next.o, 0, k) && StateAt(next.o, next.session, Next(w, e).st, 0, k).Some?
    requires var mb := next.o.mailboxes[k];
             && mb in w.boxes && x in w.boxes[mb].live
             && next.views(k).c.validity == w.boxes[mb].validity && x in next.views(k).c.live
    ensures var mb, w' := next.o.mailboxes[k], Next(w, e);
            mb in w'.boxes && w'.boxes[mb].validity == w.boxes[mb].validity && x in w'.boxes[mb].live
  {
    var w', mb := Next(w, e), next.o.mailboxes[k];
    assert Evolves(w.boxes[mb], w'.boxes[mb]);
    ReachesVisit(a, next.o, 0, k, next.session, next.views, w'.boxes, next.later, w'.st);
    EvolvesReaches(w'.boxes[mb], next.views(k).b, next.views(k).c);
  }

  /** Whatever a run that is not saved did not settle stays above the cursor, and is offered again:
      one held or refused because a list is degraded, or lost in any other way. */
  lemma UnsavedIsOfferedAgain(a: Account, w: World, e: Event, next: Event, k: nat, x: Wire)
    requires Inv(a, w) && Allowed(a, w, e) && !Saved(w, e) && Allowed(a, Next(w, e), next)
    requires GetsThrough(Next(w, e), next, k) && FirstVisit(next.o, 0, k)
    requires var mb := next.o.mailboxes[k];
             && mb in w.boxes && x in w.boxes[mb].live && !Behind(w, mb, x)
             && next.views(k).c.validity == w.boxes[mb].validity && x in next.views(k).c.live
    requires !LeftOut(next.o, next.o.mailboxes[k], next.session.visits(k), StateAt(next.o, next.session, w.st, 0, k).value, x)
    ensures Next(w, e).st == w.st && Next(w, e).fates == w.fates
    ensures Raw(next.o, next.o.mailboxes[k], w.boxes[next.o.mailboxes[k]].validity, x) in ImapOffered(next.o, next.session, Next(w, e).st)
  {
    UnsavedKeeps(w, e);
    StillThere(a, w, e, next, k, x);
    StepKeepsInv(a, w, e);
    AboveIsOffered(a, Next(w, e), next, k, x);
  }

  // -------------------------------------------------------------------- where fates are from

  /** Every fate a history settles was settled in one of its own runs, one whose state was saved. */
  lemma {:induction false} FatesAreOfRuns(w: World, events: seq<Event>, id: string) returns (i: nat)
    requires id in After(w, events).fates
    ensures i <= |events|
    ensures i == |events| ==> id in w.fates && After(w, events).fates[id] == w.fates[id]
    ensures i < |events| ==> Saved(After(w, events[..i]), events[i])
    ensures i < |events| ==> var f := FetchOf(After(w, events[..i]), events[i]); id in f.p.fates && After(w, events).fates[id] == f.p.fates[id]
    decreases |events|
  {
    i := |events|;
    if events != [] {
      var next := Next(w, events[0]);
      var k := FatesAreOfRuns(next, events[1..], id);
      if k < |events| - 1 {
        i := k + 1;
        assert events[..i][1..] == events[1..][..k] && events[..i][0] == events[0] && events[1..][k] == events[i];
      } else {
        StepSettles(w, events[0], id);
        if Saved(w, events[0]) && id in FetchOf(w, events[0]).p.fates {
          i := 0;
          assert events[..0] == [];
        }
      }
    }
  }

  lemma {:induction false} PrefixAllowed(a: Account, w: World, events: seq<Event>, i: nat)
    requires AllAllowed(a, w, events) && i < |events|
    ensures AllAllowed(a, w, events[..i]) && Allowed(a, After(w, events[..i]), events[i])
    decreases |events|
  {
    if i == 0 {
      assert events[..0] == [];
    } else {
      PrefixAllowed(a, Next(w, events[0]), events[1..], i - 1);
      assert events[..i][1..] == events[1..][..i - 1] && events[..i][0] == events[0];
    }
  }

  /** Any run of a history is one its account can come to. */
  lemma AllowedAt(a: Account, w: World, events: seq<Event>, i: nat)
    requires Inv(a, w) && AllAllowed(a, w, events) && i < |events|
    ensures Inv(a, After(w, events[..i])) && Allowed(a, After(w, events[..i]), events[i])
  {
    PrefixAllowed(a, w, events, i);
    HistoryKeepsInv(a, w, events[..i]);
  }

  lemma SavedRunJudges(a: Account, w: World, e: Event, id: string)
    requires Inv(a, w) && Allowed(a, w, e) && Saved(w, e) && id in FetchOf(w, e).p.fates
    ensures var fate, cyc := FetchOf(w, e).p.fates[id], CycleOf(e);
            && fate.cyc == cyc && !Skips(cyc) && !Holds(cyc)
            && (fate.outcome.Unmatched? ==> cyc.cfg.evaluate(fate.outcome.msg, fate.outcome.now, cyc.lists) == None)
            && (fate.outcome.Rendered? ==> cyc.cfg.evaluate(fate.outcome.msg, fate.outcome.now, cyc.lists) == Some(fate.outcome.rule))
  {
    RunAdvances(a, w, e);
    assert FatesKept(e.cfg, FetchOf(w, e).p.fates, FetchOf(w, e).p.files, FetchOf(w, e).p.parked, FetchOf(w, e).p.torn);
  }

  /** A saved run settles each message in its own cycle, by its own rules and lists, and not while its
      policy holds or refuses degraded ones. */
  lemma RunJudges(a: Account, start: World, events: seq<Event>, i: nat, id: string)
    requires Inv(a, start) && AllAllowed(a, start, events) && i < |events| && Saved(After(start, events[..i]), events[i])
    requires id in FetchOf(After(start, events[..i]), events[i]).p.fates
    ensures var fate, cyc := FetchOf(After(start, events[..i]), events[i]).p.fates[id], CycleOf(events[i]);
            && fate.cyc == cyc && !Skips(cyc) && !Holds(cyc)
            && (fate.outcome.Unmatched? ==> cyc.cfg.evaluate(fate.outcome.msg, fate.outcome.now, cyc.lists) == None)
            && (fate.outcome.Rendered? ==> cyc.cfg.evaluate(fate.outcome.msg, fate.outcome.now, cyc.lists) == Some(fate.outcome.rule))
  {
    AllowedAt(a, start, events, i);
    SavedRunJudges(a, After(start, events[..i]), events[i], id);
  }

  lemma StepSettles(w: World, e: Event, id: string)
    requires id in Next(w, e).fates
    ensures if Saved(w, e) && id in FetchOf(w, e).p.fates then Next(w, e).fates[id] == FetchOf(w, e).p.fates[id]
            else id in w.fates && Next(w, e).fates[id] == w.fates[id]
  {
  }

  // ------------------------------------------------------------------------- the smallest loss

  /** A first visit stopped as its only message is offered: the message is declined, and the
      cursor is written past it. */
  lemma StoppedVisit(o: Options, mailbox: string, x: Wire, cyc: Cycle, p: Progress)
    requires x.uid == 1 && o.lookback <= 0 && StopSeen(cyc, p)
    ensures var v := Visit(1, 2, 1, [x], 0, false, false, None);
            FetchMailbox(o, mailbox, v, NEVER_SYNCED, cyc, p)
            == Fetched(WritePair(NEVER_SYNCED, mailbox, Dec(1), 1), p, Declined(Stop, Ref(mailbox, 1, 1)))
  {
    var v := Visit(1, 2, 1, [x], 0, false, false, None);
    assert Resyncs(v, NEVER_SYNCED, mailbox) && RangeOf(o, mailbox, v, NEVER_SYNCED) == Ask(From(1));
    assert Keep([x], (w: Wire) => w.uid >= 1) == [x];
    assert Reply(v, Ask(From(1))) == [x];
    var end := Declined(Stop, Ref(mailbox, 1, 1));
    assert ReadFrom(o, mailbox, v, 0, [x], 0, 0, [], cyc, p) == Delivered(p, 1, end);
    assert Loop(o, mailbox, v, NEVER_SYNCED, Ask(From(1)), cyc, p) == Delivered(p, 1, end);
  }

  /** One message in a mailbox never synced before, and a run that is stopped as it is offered. */
  function OneMessage(raw: Bytes): Box { Box(1, 2, [Wire(1, raw, 0)]) }

  function Unsynced(raw: Bytes): World { World(map["INBOX" := OneMessage(raw)], NEVER_SYNCED, map[], map[], map[], {}, {}) }

  function StoppedRun(a: Account, raw: Bytes, clock: nat -> int): Event {
    Run(Options(a.account, ["INBOX"], 0), a.names, EMPTY_CACHE,
        Script(Some(0), clock, (_: nat, _: nat) => false, (_: nat) => Parks),
        Session(true, 0, (_: nat) => Visit(1, 2, 1, OneMessage(raw).live, 0, false, false, None)),
        (_: nat) => View(OneMessage(raw), OneMessage(raw)), Unsynced(raw).boxes, false)
  }

  lemma StoppedRunIsAllowed(a: Account, raw: Bytes, clock: nat -> int)
    requires !a.names.dryRun && IdOf(a.account, Ref("INBOX", 1, 1)) in a.ids
    ensures Allowed(a, Unsynced(raw), StoppedRun(a, raw, clock))
  {
    var e, boxes := StoppedRun(a, raw, clock), Unsynced(raw).boxes;
    assert boxes["INBOX" := OneMessage(raw)] == boxes;
    assert Honest(a, e.o, 1, e.session, e.views, boxes, e.later);
  }

  lemma StoppedRunDeclines(a: Account, raw: Bytes, clock: nat -> int)
    ensures FetchOf(Unsynced(raw), StoppedRun(a, raw, clock))
         == Fetched(WritePair(NEVER_SYNCED, "INBOX", Dec(1), 1), Begin(map[], map[]), Declined(Stop, Ref("INBOX", 1, 1)))
  {
    var e := StoppedRun(a, raw, clock);
    StoppedVisit(e.o, "INBOX", Wire(1, raw, 0), CycleOf(e), Begin(map[], map[]));
  }

  lemma StoppedRunLeaves(a: Account, raw: Bytes, clock: nat -> int)
    requires !a.names.dryRun
    ensures Next(Unsynced(raw), StoppedRun(a, raw, clock))
         == Unsynced(raw).(st := WritePair(NEVER_SYNCED, "INBOX", Dec(1), 1), missed := {Ref("INBOX", 1, 1)})
  {
    StoppedRunDeclines(a, raw, clock);
  }

  /** The smallest loss: the stopped run is saved, the message is behind the cursor, and nothing
      settled it. */
  lemma StopLosesMail(a: Account, raw: Bytes, clock: nat -> int)
    requires Named(a.names, a.account, a.ids) && !a.names.dryRun && IdOf(a.account, Ref("INBOX", 1, 1)) in a.ids
    ensures Reachable(a, Unsynced(raw), [StoppedRun(a, raw, clock)])
    ensures var w := After(Unsynced(raw), [StoppedRun(a, raw, clock)]);
            Behind(w, "INBOX", Wire(1, raw, 0)) && w.missed == {Ref("INBOX", 1, 1)} && w.fates == map[]
  {
    var start, e := Unsynced(raw), StoppedRun(a, raw, clock);
    StoppedRunIsAllowed(a, raw, clock);
    assert [e][1..] == [];
    assert After(start, [e]) == Next(start, e);
    StoppedRunLeaves(a, raw, clock);
    PairReadsBack(NEVER_SYNCED, "INBOX", 1, 1);
    assert Passed(start.boxes, Next(start, e).st, Ref("INBOX", 1, 1));
  }
}
