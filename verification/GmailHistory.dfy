/** A Gmail account over every history of runs: its two watermarks, the history cursor and the
    time of the last sync, never disagree about what is still waiting. */
module GmailHistory {
  import opened Text
  import opened Seqs
  import opened Mail
  import opened Filter
  import opened Sync
  import opened Pipeline
  import opened PipelineTheorems
  import opened RecordTheorems
  import opened Offers
  import opened Gmail

  // ------------------------------------------------------------------------ the system

  /** A message as the mailbox knows it: the history id its arrival was given, when it arrived,
      and the date `after:` is evaluated against. */
  datatype Letter = Letter(id: string, hid: nat, arrived: int, date: int)

  /** The mailbox at one moment: every arrival so far, its current history id, and the true time. */
  datatype Box = Box(log: seq<Letter>, head: nat, now: int)

  /** An account: its name, the configuration its files are named under, the ids its mail will ever
      have, the most its clock runs ahead (`skew`), the most a message's date precedes its arrival
      (`drift`), and what Gmail's search makes of a query. */
  datatype Account = Account(
    account: string, names: Config, ids: set<string>, skew: nat, drift: nat, search: (string, Letter) -> bool)

  /** Everything that outlives a run, and the record of it: the fates settled, the ids found
      deleted or in Spam or Trash as the cursor passed them, the ids a first run's query or
      lookback left outside and those a later scan left out, each with the scan that did, and those
      whose quarantine copy a failed write tore. `synced` is set once a run has completed. */
  datatype World = World(
    box: Box, st: State, files: map<string, File>, parked: map<string, string>, fates: map<string, Fate>,
    vanished: set<string>, excluded: set<string>, outside: map<string, Scan>, late: map<string, Scan>,
    torn: set<string>, synced: bool)

  /** The mailbox changes by itself, or a run happens, with its options, rules and policies:
      `sampled` is the mailbox when its clock is read, `listed` the one its listing covers, `gone`
      and `spam` the ids deleted, or in Spam or Trash, while it ran. */
  datatype Event =
    | ServerMoves(later: Box)
    | Run(o: Options, cfg: Config, lists: Cache, script: Script, session: Session, sampled: Box, listed: Box, later: Box,
          gone: set<string>, spam: set<string>, saveFails: bool)

  function CycleOf(e: Event): Cycle
    requires e.Run?
  {
    Cycle(e.cfg, e.lists, e.script)
  }

  function FetchOf(w: World, e: Event): Fetched
    requires e.Run?
  {
    Fetch(e.o, e.session, w.st, CycleOf(e), Begin(w.files, w.parked))
  }

  predicate Saved(w: World, e: Event) {
    e.Run? && !Skips(CycleOf(e)) && !e.saveFails && Saves(CycleOf(e), Grade(FetchOf(w, e).end))
  }

  function Done(w: World): set<string> { w.fates.Keys + w.vanished + w.excluded + w.outside.Keys + w.late.Keys }

  predicate Hidden(e: Event, id: string)
    requires e.Run?
  {
    !e.o.includeSpamTrash && id in e.spam
  }

  /** What a completed run leaves unsettled in the mailbox it listed. */
  function Unsettled(w: World, e: Event): set<string>
    requires e.Run?
  {
    set m | m in e.listed.log && m.id !in Done(w) && m.id !in FetchOf(w, e).p.fates :: m.id
  }

  function Left(w: World, e: Event): set<string>
    requires e.Run?
  {
    set id | id in Unsettled(w, e) && id !in e.gone && !Hidden(e, id)
  }

  /** What it leaves, with the scan it made. */
  function LeftBy(w: World, e: Event): map<string, Scan>
    requires e.Run?
  {
    map id | id in Left(w, e) :: ScanOf(e.o, w.st, e.session)
  }

  /** A run's effect: its files stay; its state and record only if they were saved. */
  function Ran(w: World, later: Box, f: Fetched, saved: bool): World {
    var ran := w.(box := later, files := f.p.files, parked := f.p.parked);
    if !saved then ran.(torn := w.torn + f.p.torn)
    else
      ran.(st := f.st.(seen := MarkedAll(f.st.seen, f.p.accounted)),
           fates := w.fates + f.p.fates, torn := w.torn - f.p.fates.Keys)
  }

  function Next(w: World, e: Event): World {
    if e.ServerMoves? then w.(box := e.later)
    else if Skips(CycleOf(e)) then w.(box := e.later)
    else
      var ran := Ran(w, e.later, FetchOf(w, e), Saved(w, e));
      if !Saved(w, e) || !FetchOf(w, e).end.Done? then ran
      else
        var unsettled, left := Unsettled(w, e), LeftBy(w, e);
        ran.(vanished := w.vanished + (set id | id in unsettled && id in e.gone),
             excluded := w.excluded + (set id | id in unsettled && Hidden(e, id)),
             outside := if w.synced then w.outside else w.outside + left,
             late := if w.synced then w.late + left else w.late,
             synced := true)
  }

  // -------------------------------------------------------------- what the server promises

  /** An id names one message, and a history id is no more than the mailbox's own. */
  ghost predicate ValidBox(a: Account, b: Box) {
    && 1 <= b.head && (forall i, j | 0 <= i < j < |b.log| :: b.log[i].id != b.log[j].id)
    && forall m | m in b.log ::
         1 <= m.hid <= b.head && m.arrived <= b.now && m.date >= m.arrived - a.drift && m.id in a.ids && m.id != ""
  }

  /** Mail is only added, above the history id the mailbox had and not before its time. */
  ghost predicate Grows(a: Account, b: Box, c: Box) {
    && ValidBox(a, c) && b.log <= c.log && b.head <= c.head && b.now <= c.now
    && forall i | |b.log| <= i < |c.log| :: c.log[i].hid > b.head && c.log[i].arrived >= b.now
  }

  predicate Matches(a: Account, scan: Scan, m: Letter) {
    (scan.query == "" || a.search(scan.query, m)) && (scan.after.Some? ==> m.date >= scan.after.value)
  }

  predicate Incrementally(st: State, s: Session) { st.historyId > 0 && s.historyWalk.Complete? }

  predicate ScansInstead(st: State, s: Session) { st.historyId == 0 || s.historyWalk.NotFound? }

  function ScanOf(o: Options, st: State, s: Session): Scan { ScanQuery(o, st, FirstEver(st), s.scanNow) }

  /** A completed history listing reports every addition since the cursor, up to the mailbox it
      covers, and no later cursor. */
  ghost predicate HistoryHonest(st: State, e: Event)
    requires e.Run?
  {
    && Highest(e.session.history, 0) <= e.listed.head
    && forall m | m in e.listed.log && m.hid > st.historyId && m.id !in e.gone :: m.id in HistoryIdsOf(e.session.history)
  }

  /** A completed scan lists every match in the mailbox the profile's cursor describes, which is not
      an earlier one than its clock was read at. */
  ghost predicate ListingHonest(a: Account, st: State, e: Event)
    requires e.Run?
  {
    && (e.session.profile.Some? ==> e.sampled.head <= e.session.profile.value <= e.listed.head)
    && forall m | m in e.listed.log && Matches(a, ScanOf(e.o, st, e.session), m) && m.id !in e.gone && !Hidden(e, m.id) ::
         m.id in ListedIds(e.session.listing)
  }

  ghost predicate AnswerHonest(a: Account, e: Event, answer: Answer)
    requires e.Run?
  {
    match answer
    case Got(raw) => raw.id in a.ids && raw.id != "" && (Excluded(e.o, raw) ==> raw.id in e.spam)
    case Gone(id) => id in e.gone
    case Failed => true
  }

  function AnswerId(answer: Answer): string {
    match answer
    case Got(raw) => raw.id
    case Gone(id) => id
    case Failed => ""
  }

  function Listed(st: State, s: Session): seq<string> {
    if Incrementally(st, s) then HistoryIdsOf(s.history) else ListedIds(s.listing)
  }

  /** A download's results: true ones, for ids not seen before, and one for every pending id unless
      it failed or was cut short. */
  ghost predicate DownloadHonest(a: Account, st: State, e: Event)
    requires e.Run?
  {
    && (forall answer | answer in e.session.answers :: AnswerHonest(a, e, answer) && AnswerId(answer) !in st.seen)
    && (e.session.cutShort || Failed in e.session.answers
        || forall id | id in Listed(st, e.session) && id != "" && id !in st.seen ::
             exists answer | answer in e.session.answers :: AnswerId(answer) == id)
  }

  ghost predicate Allowed(a: Account, w: World, e: Event) {
    match e
    case ServerMoves(later) => Grows(a, w.box, later)
    case Run(_, _, _, _, session, sampled, listed, later, gone, spam, _) =>
      && LiveCycle(CycleOf(e), a.names)
      && Grows(a, w.box, sampled) && Grows(a, sampled, listed) && Grows(a, listed, later)
      && session.syncStart <= sampled.now + a.skew && session.scanStart <= sampled.now + a.skew
      && (Incrementally(w.st, session) ==> HistoryHonest(w.st, e))
      && (ScansInstead(w.st, session) ==> ListingHonest(a, w.st, e))
      && DownloadHonest(a, w.st, e)
  }

  function After(w: World, events: seq<Event>): World
    decreases |events|
  {
    if events == [] then w else After(Next(w, events[0]), events[1..])
  }

  ghost predicate AllAllowed(a: Account, w: World, events: seq<Event>)
    decreases |events|
  {
    events != [] ==> Allowed(a, w, events[0]) && AllAllowed(a, Next(w, events[0]), events[1..])
  }

  // ------------------------------------------------------------------------- one fetch

  /** A download accepts, skips or fails; a completed one has settled every message it got. */
  lemma {:induction false} DrainSettles(o: Options, s: Session, k: nat, seen: seq<string>, cyc: Cycle, p: Progress)
    requires k <= |s.answers| && SeenBounded(seen)
    ensures var d := Drain(o, s, k, seen, cyc, p);
            && p.fates.Keys <= d.p.fates.Keys && SeenBounded(d.seen)
            && (forall id | id in d.seen :: id in seen || id in d.p.fates)
            && (d.end.Declined? ==> d.end.verdict != Accept)
            && (d.end.Done? ==> !s.cutShort && forall i | k <= i < |s.answers| :: AnswerSettled(o, s.answers[i], d.p))
    decreases |s.answers| - k
  {
    if k < |s.answers| {
      var answer := s.answers[k];
      if answer.Gone? || (answer.Got? && Excluded(o, answer.raw)) {
        DrainSettles(o, s, k + 1, seen, cyc, p);
      } else if answer.Got? {
        HandleRecords(cyc, p, answer.raw);
        var (q, verdict) := Handle(cyc, p, answer.raw);
        if verdict == Accept {
          MarkedKeeps(seen, answer.raw.id);
          DrainSettles(o, s, k + 1, Marked(seen, answer.raw.id), cyc, q);
        }
      }
    }
  }

  ghost predicate AnswerSettled(o: Options, answer: Answer, p: Progress) {
    match answer
    case Got(raw) => Excluded(o, raw) || raw.id in p.fates
    case Gone(_) => true
    case Failed => false
  }

  lemma MarkedKeeps(seen: seq<string>, id: string)
    requires SeenBounded(seen)
    ensures SeenBounded(Marked(seen, id)) && forall x | x in Marked(seen, id) :: x in seen || x == id
  {
    MarkedAllKeeps(seen, [id]);
    assert [id][1..] == [] && MarkedAll(seen, [id]) == Marked(seen, id);
  }

  lemma {:induction false} DrainAdvances(o: Options, s: Session, k: nat, seen: seq<string>, cyc: Cycle, p: Progress, ids: set<string>)
    requires k <= |s.answers| && !cyc.cfg.dryRun && FaithfulNames(cyc.cfg, ids) && InCycle(cyc, ids, p)
    requires forall answer | answer in s.answers && answer.Got? :: answer.raw.id in ids
    ensures Advances(cyc, ids, p, Drain(o, s, k, seen, cyc, p).p)
    decreases |s.answers| - k
  {
    if k < |s.answers| {
      var answer := s.answers[k];
      if answer.Gone? || (answer.Got? && Excluded(o, answer.raw)) {
        DrainAdvances(o, s, k + 1, seen, cyc, p, ids);
      } else if answer.Got? {
        HandleAdvances(cyc, p, answer.raw, ids);
        var (q, verdict) := Handle(cyc, p, answer.raw);
        if verdict == Accept {
          DrainAdvances(o, s, k + 1, Marked(seen, answer.raw.id), cyc, q, ids);
        }
      }
    }
  }

  lemma {:induction false} PendingIs(ids: seq<string>, seen: seq<string>)
    ensures forall id :: id in Pending(ids, seen) <==> id in ids && id != "" && id !in seen
  {
    if ids != [] {
      PendingIs(ids[1..], seen);
      assert forall id :: id in ids <==> id == ids[0] || id in ids[1..];
    }
  }

  /** The download every route ends in, as one function of the route's ids. */
  function DownloadOf(o: Options, st: State, s: Session, cyc: Cycle, p: Progress): Downloaded {
    Download(o, s, Dedup(Listed(st, s)), st.seen, cyc, p)
  }

  /** Every listed id a completed download did not settle was deleted, or excluded as spam. */
  lemma DownloadCompletes(a: Account, st: State, e: Event, cyc: Cycle, p: Progress, id: string)
    requires e.Run? && DownloadHonest(a, st, e) && SeenBounded(st.seen)
    requires DownloadOf(e.o, st, e.session, cyc, p).end.Done? && id in Listed(st, e.session) && id != ""
    ensures id in st.seen || id in DownloadOf(e.o, st, e.session, cyc, p).p.fates || id in e.gone || Hidden(e, id)
  {
    var s, ids := e.session, Dedup(Listed(st, e.session));
    AddAllCollects([], Listed(st, s));
    PendingIs(ids, st.seen);
    if id !in st.seen {
      assert id in Pending(ids, st.seen);
      DrainSettles(e.o, s, 0, st.seen, cyc, p);
      var d := Drain(e.o, s, 0, st.seen, cyc, p);
      assert Failed !in s.answers;
      var answer :| answer in s.answers && AnswerId(answer) == id;
      var i :| 0 <= i < |s.answers| && s.answers[i] == answer;
      assert AnswerSettled(e.o, s.answers[i], d.p) && AnswerHonest(a, e, answer);
    }
  }

  /** Whatever its route, a fetch offers nothing, or exactly one download's worth. */
  lemma FetchIsDownload(o: Options, s: Session, st: State, cyc: Cycle, p: Progress)
    ensures var f, d := Fetch(o, s, st, cyc, p), Drain(o, s, 0, st.seen, cyc, p);
            || (f.p == p && f.st.seen == st.seen && !f.end.Declined?)
            || (f.p == d.p && f.st.seen == d.seen && f.end == d.end)
  {
  }

  /** However it ends, a fetch advances the record and keeps the seen set honest. */
  lemma FetchAdvances(a: Account, w: World, e: Event)
    requires e.Run? && Named(a.names, a.account, a.ids) && OwnFiles(a.names, a.ids, w.files)
    requires LiveCycle(CycleOf(e), a.names) && DownloadHonest(a, w.st, e)
    ensures Advances(CycleOf(e), a.ids, Begin(w.files, w.parked), FetchOf(w, e).p)
  {
    var cyc, p := CycleOf(e), Begin(w.files, w.parked);
    NamesDecide(a.names, e.cfg, a.ids, w.files);
    assert InCycle(cyc, a.ids, p);
    forall answer | answer in e.session.answers && answer.Got? ensures answer.raw.id in a.ids {
      assert AnswerHonest(a, e, answer);
    }
    DrainAdvances(e.o, e.session, 0, w.st.seen, cyc, p, a.ids);
    FetchIsDownload(e.o, e.session, w.st, cyc, p);
  }

  lemma FetchKeepsSeen(a: Account, w: World, e: Event)
    requires SeenBounded(w.st.seen) && e.Run?
    ensures var f := FetchOf(w, e);
            SeenBounded(f.st.seen) && forall id | id in f.st.seen :: id in w.st.seen || id in f.p.fates
  {
    DrainSettles(e.o, e.session, 0, w.st.seen, CycleOf(e), Begin(w.files, w.parked));
    FetchIsDownload(e.o, e.session, w.st, CycleOf(e), Begin(w.files, w.parked));
  }

  /** A download tears at most the copy of the message it was refused on, one it had not seen. */
  lemma {:induction false} DrainTears(o: Options, s: Session, k: nat, seen: seq<string>, cyc: Cycle, p: Progress, known: seq<string>)
    requires k <= |s.answers| && forall answer | answer in s.answers :: AnswerId(answer) !in known
    ensures var d := Drain(o, s, k, seen, cyc, p);
            && (forall id | id in d.p.torn && id !in p.torn :: id !in known)
            && (!(d.end.Declined? && d.end.verdict == Refuse) ==> d.p.torn == p.torn)
    decreases |s.answers| - k
  {
    if k < |s.answers| {
      var answer := s.answers[k];
      if answer.Gone? || (answer.Got? && Excluded(o, answer.raw)) {
        DrainTears(o, s, k + 1, seen, cyc, p, known);
      } else if answer.Got? {
        assert AnswerId(answer) == answer.raw.id;
        HandleRecords(cyc, p, answer.raw);
        var (q, verdict) := Handle(cyc, p, answer.raw);
        if verdict == Accept {
          DrainTears(o, s, k + 1, Marked(seen, answer.raw.id), cyc, q, known);
        }
      }
    }
  }

  lemma FetchTears(a: Account, w: World, e: Event)
    requires e.Run? && DownloadHonest(a, w.st, e)
    ensures Saved(w, e) ==> FetchOf(w, e).p.torn == {}
    ensures forall id | id in FetchOf(w, e).p.torn :: id !in w.st.seen
  {
    var cyc, p := CycleOf(e), Begin(w.files, w.parked);
    DrainTears(e.o, e.session, 0, w.st.seen, cyc, p, w.st.seen);
    FetchIsDownload(e.o, e.session, w.st, cyc, p);
  }

  // --------------------------------------------------------------------- the invariant

  /** The history cursor's promise: everything at or below it is accounted for. */
  ghost predicate CursorSound(w: World) {
    w.st.historyId <= w.box.head
    && (w.st.historyId > 0 ==> forall m | m in w.box.log && m.hid <= w.st.historyId :: m.id in Done(w))
  }

  /** The watermark's promise: everything not accounted for would be listed by a recovery scan. */
  ghost predicate WatermarkSound(a: Account, w: World) {
    w.st.lastSync.Some? ==>
      && w.st.lastSync.value <= w.box.now + a.skew
      && forall m | m in w.box.log && m.id !in Done(w) :: m.date >= w.st.lastSync.value - RECOVERY_OVERLAP
  }

  ghost predicate Watermarks(a: Account, w: World) { CursorSound(w) && WatermarkSound(a, w) }

  /** Whatever a scan left out is a message that scan does not match. */
  ghost predicate Misses(a: Account, box: Box, scans: map<string, Scan>) {
    forall id | id in scans :: exists m :: m in box.log && m.id == id && !Matches(a, scans[id], m)
  }

  ghost predicate Inv(a: Account, w: World) { Core(a, w) && Misses(a, w.box, w.outside) && Misses(a, w.box, w.late) }

  /** The half of the invariant that is about cursors and the seen set. */
  ghost predicate CursorCore(a: Account, w: World) {
    Watermarks(a, w) && (!FirstEver(w.st) ==> w.synced) && SeenBounded(w.st.seen) && forall id | id in w.st.seen :: id in Done(w)
  }

  ghost predicate Core(a: Account, w: World) {
    && Named(a.names, a.account, a.ids) && a.skew + a.drift <= RECOVERY_OVERLAP
    && ValidBox(a, w.box) && CursorCore(a, w)
    && OwnFiles(a.names, a.ids, w.files) && Kept(a.names, a.ids, w.fates, w.files, w.parked, w.torn)
  }

  lemma GrowsReaches(a: Account, b: Box, c: Box, d: Box)
    requires Grows(a, b, c) && Grows(a, c, d)
    ensures Grows(a, b, d)
  {
  }

  /** New mail is above any cursor and after any watermark the account holds. */
  lemma GrowthKeepsWatermarks(a: Account, w: World, later: Box)
    requires Watermarks(a, w) && a.skew + a.drift <= RECOVERY_OVERLAP && Grows(a, w.box, later)
    ensures Watermarks(a, w.(box := later))
  {
    forall m | m in later.log ensures m in w.box.log || (m.hid > w.box.head && m.arrived >= w.box.now) {
      var i :| 0 <= i < |later.log| && later.log[i] == m;
      if i < |w.box.log| {
        assert w.box.log[i] == m;
      }
    }
  }

  /** More accounted for, and at most the first-run marker changed. */
  lemma DoneKeepsWatermarks(a: Account, w: World, w': World)
    requires Watermarks(a, w) && Done(w) <= Done(w') && w'.box == w.box && w'.st.lastSync == w.st.lastSync
    requires w'.st.historyId == w.st.historyId || w'.st.historyId == 0
    ensures Watermarks(a, w')
  {
  }

  /** A completed run: everything in the mailbox it listed is accounted for, so the new pair may
      stand at that mailbox, however much arrived while it ran. */
  lemma CompletionKeepsWatermarks(a: Account, w': World, sampled: Box, listed: Box)
    requires a.skew + a.drift <= RECOVERY_OVERLAP && Grows(a, sampled, listed) && Grows(a, listed, w'.box)
    requires w'.st.historyId <= listed.head && w'.st.lastSync.Some? && w'.st.lastSync.value <= sampled.now + a.skew
    requires forall m | m in listed.log :: m.id in Done(w')
    ensures Watermarks(a, w')
  {
    forall m | m in w'.box.log ensures m in listed.log || (m.hid > listed.head && m.arrived >= listed.now) {
      var i :| 0 <= i < |w'.box.log| && w'.box.log[i] == m;
      if i < |listed.log| {
        assert listed.log[i] == m;
      }
    }
  }

  lemma {:induction false} HighestRecordFrom(records: seq<Record>, start: nat, low: nat)
    requires low <= start
    ensures HighestRecord(records, start) == Higher(start, HighestRecord(records, low))
    ensures HighestRecord(records, start) >= start
    decreases |records|
  {
    if records != [] {
      HighestRecordFrom(records[1..], Higher(start, records[0].id), Higher(low, records[0].id));
    }
  }

  lemma {:induction false} HighestFrom(pages: seq<HistoryPage>, start: nat, low: nat)
    requires low <= start
    ensures Highest(pages, start) == Higher(start, Highest(pages, low))
    ensures Highest(pages, start) >= start
    decreases |pages|
  {
    if pages != [] {
      HighestRecordFrom(pages[0].records, start, low);
      HighestFrom(pages[1..], Higher(HighestRecord(pages[0].records, start), pages[0].historyId),
                  Higher(HighestRecord(pages[0].records, low), pages[0].historyId));
    }
  }

  /** Everything in the listed mailbox is in one of the classes a completed run sorts it into. */
  lemma CompletionAccounts(a: Account, w: World, e: Event)
    requires Saved(w, e) && FetchOf(w, e).end.Done?
    ensures forall m | m in e.listed.log :: m.id in Done(Next(w, e))
    ensures Done(w) + FetchOf(w, e).p.fates.Keys <= Done(Next(w, e))
  {
    forall m | m in e.listed.log ensures m.id in Done(Next(w, e)) {
      if m.id !in Done(w) && m.id !in FetchOf(w, e).p.fates {
        assert m.id in Unsettled(w, e);
        assert m.id !in e.gone && !Hidden(e, m.id) ==> m.id in Left(w, e);
      }
    }
  }

  /** Where a completed fetch leaves the pair: at or below the mailbox it listed, and no later
      than its clock was read. */
  lemma CompletionPair(a: Account, w: World, e: Event)
    requires Allowed(a, w, e) && e.Run? && FetchOf(w, e).end.Done? && w.st.historyId <= w.box.head
    ensures var st := FetchOf(w, e).st;
            0 < st.historyId <= e.listed.head && st.lastSync.Some? && st.lastSync.value <= e.sampled.now + a.skew
  {
    if Incrementally(w.st, e.session) {
      HighestFrom(e.session.history, w.st.historyId, 0);
    }
  }

  lemma SavedRunKeepsWatermarks(a: Account, w: World, e: Event)
    requires a.skew + a.drift <= RECOVERY_OVERLAP && Watermarks(a, w) && Allowed(a, w, e) && Saved(w, e)
    ensures Watermarks(a, Next(w, e))
  {
    var w' := Next(w, e);
    GrowsReaches(a, e.sampled, e.listed, e.later);
    if FetchOf(w, e).end.Done? {
      CompletionAccounts(a, w, e);
      CompletionPair(a, w, e);
      CompletionKeepsWatermarks(a, w', e.sampled, e.listed);
    } else {
      GrowsReaches(a, w.box, e.sampled, e.later);
      GrowthKeepsWatermarks(a, w, e.later);
      DoneKeepsWatermarks(a, w.(box := e.later), w');
    }
  }

  lemma SavedRunKeepsSeen(a: Account, w: World, e: Event)
    requires SeenBounded(w.st.seen) && (forall id | id in w.st.seen :: id in Done(w)) && Saved(w, e)
    requires forall id | id in FetchOf(w, e).p.accounted :: id in FetchOf(w, e).p.fates
    ensures var w' := Next(w, e); SeenBounded(w'.st.seen) && forall id | id in w'.st.seen :: id in Done(w')
  {
    var f, w' := FetchOf(w, e), Next(w, e);
    FetchKeepsSeen(a, w, e);
    MarkedAllKeeps(f.st.seen, f.p.accounted);
    assert Done(w) <= Done(w') && f.p.fates.Keys <= Done(w');
  }

  lemma RunKeepsFiles(a: Account, w: World, e: Event)
    requires e.Run? && Named(a.names, a.account, a.ids) && LiveCycle(CycleOf(e), a.names) && DownloadHonest(a, w.st, e)
    requires OwnFiles(a.names, a.ids, w.files)
    ensures OwnFiles(a.names, a.ids, FetchOf(w, e).p.files)
    ensures forall id | id in FetchOf(w, e).p.accounted :: id in FetchOf(w, e).p.fates
  {
    FetchAdvances(a, w, e);
    NamesDecide(e.cfg, a.names, a.ids, FetchOf(w, e).p.files);
  }

  lemma RunKeepsRecord(a: Account, w: World, e: Event)
    requires e.Run? && Named(a.names, a.account, a.ids) && LiveCycle(CycleOf(e), a.names) && DownloadHonest(a, w.st, e)
    requires OwnFiles(a.names, a.ids, w.files) && Kept(a.names, a.ids, w.fates, w.files, w.parked, w.torn)
    ensures var w' := Next(w, e);
            OwnFiles(a.names, a.ids, w'.files) && Kept(a.names, a.ids, w'.fates, w'.files, w'.parked, w'.torn)
  {
    if !Skips(CycleOf(e)) {
      FetchAdvances(a, w, e);
      FetchTears(a, w, e);
      RunKeepsFiles(a, w, e);
      RecordAfterRun(a.names, CycleOf(e), a.ids, w, e.later, FetchOf(w, e), Saved(w, e));
    }
  }

  lemma RecordAfterRun(names: Config, cyc: Cycle, ids: set<string>, w: World, later: Box, f: Fetched, saved: bool)
    requires SameNames(cyc.cfg, names)
    requires Kept(names, ids, w.fates, w.files, w.parked, w.torn) && Advances(cyc, ids, Begin(w.files, w.parked), f.p)
    requires saved ==> f.p.torn == {} && !Skips(cyc) && !Holds(cyc)
    ensures var w' := Ran(w, later, f, saved); Kept(names, ids, w'.fates, w'.files, w'.parked, w'.torn)
  {
    if saved {
      SavedKeepsRecord(names, cyc, ids, w.fates, w.files, w.parked, w.torn, f.p);
    } else {
      UnsavedKeepsRecord(names, cyc, ids, w.fates, w.files, w.parked, w.torn, f.p);
    }
  }

  /** Only a scan that takes itself for the first ever leaves anything out: an incremental run
      and a recovery settle everything in the mailbox they listed. */
  lemma OnlyFirstScansLeave(a: Account, w: World, e: Event)
    requires Inv(a, w) && Allowed(a, w, e) && Saved(w, e) && FetchOf(w, e).end.Done? && !FirstEver(w.st)
    ensures Left(w, e) == {}
  {
    GrowsReaches(a, w.box, e.sampled, e.listed);
    GrowthKeepsWatermarks(a, w, e.listed);
    forall m | m in e.listed.log && m.id in Left(w, e) ensures false {
      ScanLists(a, w, e, m);
      DownloadCompletes(a, DownloadState(w, e), e, CycleOf(e), Begin(w.files, w.parked), m.id);
    }
  }

  /** The state a download starts from: the stored one, with an expired cursor cleared. */
  function DownloadState(w: World, e: Event): State
    requires e.Run?
  {
    if Incrementally(w.st, e.session) then w.st else w.st.(historyId := 0)
  }

  lemma ScanLists(a: Account, w: World, e: Event, m: Letter)
    requires e.Run? && ValidBox(a, e.listed) && Watermarks(a, w.(box := e.listed)) && Allowed(a, w, e) && !FirstEver(w.st)
    requires FetchOf(w, e).end.Done? && m in e.listed.log && m.id !in Done(w) && m.id !in e.gone && !Hidden(e, m.id)
    ensures m.id in Listed(w.st, e.session) && m.id != ""
  {
    if !Incrementally(w.st, e.session) {
      assert Matches(a, ScanOf(e.o, w.st, e.session), m);
    }
  }

  /** Scans that missed messages of a mailbox missed messages of the later one. */
  lemma MissesStays(a: Account, b: Box, c: Box, scans: map<string, Scan>)
    requires Misses(a, b, scans) && Grows(a, b, c)
    ensures Misses(a, c, scans)
  {
    forall id | id in scans ensures exists m :: m in c.log && m.id == id && !Matches(a, scans[id], m) {
      var m :| m in b.log && m.id == id && !Matches(a, scans[id], m);
      assert m in c.log;
    }
  }

  /** A completed run leaves unsettled nothing that its own scan matches. */
  lemma LeftMisses(a: Account, w: World, e: Event, m: Letter)
    requires Inv(a, w) && Allowed(a, w, e) && Saved(w, e) && FetchOf(w, e).end.Done?
    requires m in e.listed.log && m.id in Left(w, e)
    ensures !Matches(a, ScanOf(e.o, w.st, e.session), m)
  {
    GrowsReaches(a, w.box, e.sampled, e.listed);
    if Incrementally(w.st, e.session) {
      OnlyFirstScansLeave(a, w, e);
    } else if Matches(a, ScanOf(e.o, w.st, e.session), m) {
      DownloadCompletes(a, DownloadState(w, e), e, CycleOf(e), Begin(w.files, w.parked), m.id);
    }
  }

  lemma RunMisses(a: Account, w: World, e: Event)
    requires Inv(a, w) && Allowed(a, w, e) && Saved(w, e) && FetchOf(w, e).end.Done?
    ensures Misses(a, e.later, LeftBy(w, e))
  {
    forall id | id in LeftBy(w, e)
      ensures exists m :: m in e.later.log && m.id == id && !Matches(a, LeftBy(w, e)[id], m)
    {
      var m :| m in e.listed.log && m.id == id;
      LeftMisses(a, w, e, m);
      assert m in e.later.log;
    }
  }

  lemma MissesBoth(a: Account, box: Box, scans: map<string, Scan>, more: map<string, Scan>)
    requires Misses(a, box, scans) && Misses(a, box, more)
    ensures Misses(a, box, scans + more)
  {
    forall id | id in scans + more ensures exists m :: m in box.log && m.id == id && !Matches(a, (scans + more)[id], m) {
      assert (scans + more)[id] == if id in more then more[id] else scans[id];
    }
  }

  /** What a step adds to the messages left out: a completed and saved run's, to one record or the other. */
  lemma StepLeaves(w: World, e: Event)
    ensures var w' := Next(w, e);
            if Saved(w, e) && FetchOf(w, e).end.Done? then
              w'.outside == (if w.synced then w.outside else w.outside + LeftBy(w, e))
              && w'.late == (if w.synced then w.late + LeftBy(w, e) else w.late)
            else w'.outside == w.outside && w'.late == w.late
    ensures Next(w, e).box == e.later
  {
  }

  lemma LeavesNothing(w: World, e: Event, scans: map<string, Scan>)
    requires e.Run? && Left(w, e) == {}
    ensures scans + LeftBy(w, e) == scans
  {
  }

  lemma LaterBox(a: Account, w: World, e: Event)
    requires Allowed(a, w, e)
    ensures Grows(a, w.box, e.later)
  {
    if e.Run? {
      GrowsReaches(a, e.sampled, e.listed, e.later);
      GrowsReaches(a, w.box, e.sampled, e.later);
    }
  }

  lemma StepMisses(a: Account, w: World, e: Event)
    requires Inv(a, w) && Allowed(a, w, e)
    ensures Misses(a, Next(w, e).box, Next(w, e).outside) && Misses(a, Next(w, e).box, Next(w, e).late)
  {
    LaterBox(a, w, e);
    StepLeaves(w, e);
    MissesStays(a, w.box, e.later, w.outside);
    MissesStays(a, w.box, e.later, w.late);
    if Saved(w, e) && FetchOf(w, e).end.Done? {
      RunMisses(a, w, e);
      MissesBoth(a, e.later, w.outside, LeftBy(w, e));
      MissesBoth(a, e.later, w.late, LeftBy(w, e));
    }
  }

  /** Nothing but the mailbox, the files and the torn copies differs. */
  ghost predicate SameRecord(w: World, w': World) {
    && w'.st == w.st && w'.fates == w.fates && w'.vanished == w.vanished && w'.excluded == w.excluded
    && w'.outside == w.outside && w'.late == w.late && w'.synced == w.synced
  }

  lemma UnsavedRan(w: World, later: Box, f: Fetched)
    ensures SameRecord(w, Ran(w, later, f, false)) && Ran(w, later, f, false).box == later
  {
  }

  /** An unsaved step changes no state and no record of what was settled or left out. */
  lemma UnsavedSame(w: World, e: Event)
    requires !Saved(w, e)
    ensures SameRecord(w, Next(w, e)) && Next(w, e).box == e.later
  {
    if e.Run? && !Skips(CycleOf(e)) {
      UnsavedRan(w, e.later, FetchOf(w, e));
      assert Next(w, e) == Ran(w, e.later, FetchOf(w, e), false);
    }
  }

  lemma UnsavedKeepsCursor(a: Account, w: World, e: Event)
    requires CursorCore(a, w) && a.skew + a.drift <= RECOVERY_OVERLAP && Allowed(a, w, e) && !Saved(w, e)
    ensures CursorCore(a, Next(w, e))
  {
    LaterBox(a, w, e);
    GrowthKeepsWatermarks(a, w, e.later);
    UnsavedSame(w, e);
    assert Done(Next(w, e)) == Done(w);
  }

  lemma SavedKeepsCursor(a: Account, w: World, e: Event)
    requires CursorCore(a, w) && a.skew + a.drift <= RECOVERY_OVERLAP && Allowed(a, w, e) && Saved(w, e)
    requires forall id | id in FetchOf(w, e).p.accounted :: id in FetchOf(w, e).p.fates
    ensures CursorCore(a, Next(w, e))
  {
    SavedRunKeepsWatermarks(a, w, e);
    SavedRunKeepsSeen(a, w, e);
    assert !FetchOf(w, e).end.Done? ==> FetchOf(w, e).st.lastSync == w.st.lastSync && FetchOf(w, e).st.historyId <= w.st.historyId;
  }

  lemma StepKeepsCore(a: Account, w: World, e: Event)
    requires Core(a, w) && Allowed(a, w, e)
    ensures Core(a, Next(w, e))
  {
    LaterBox(a, w, e);
    StepKeepsRecord(a, w, e);
    StepLeaves(w, e);
    if Saved(w, e) {
      RunKeepsFiles(a, w, e);
      SavedKeepsCursor(a, w, e);
    } else {
      UnsavedKeepsCursor(a, w, e);
    }
  }

  lemma StepKeepsRecord(a: Account, w: World, e: Event)
    requires Named(a.names, a.account, a.ids) && Allowed(a, w, e)
    requires OwnFiles(a.names, a.ids, w.files) && Kept(a.names, a.ids, w.fates, w.files, w.parked, w.torn)
    ensures var w' := Next(w, e);
            OwnFiles(a.names, a.ids, w'.files) && Kept(a.names, a.ids, w'.fates, w'.files, w'.parked, w'.torn)
  {
    if e.Run? {
      RunKeepsRecord(a, w, e);
    }
  }

  lemma StepKeepsInv(a: Account, w: World, e: Event)
    requires Inv(a, w) && Allowed(a, w, e)
    ensures Inv(a, Next(w, e))
  {
    StepKeepsCore(a, w, e);
    StepMisses(a, w, e);
  }

  lemma {:induction false} HistoryKeepsInv(a: Account, w: World, events: seq<Event>)
    requires Inv(a, w) && AllAllowed(a, w, events)
    ensures Inv(a, After(w, events))
    decreases |events|
  {
    if events != [] {
      StepKeepsInv(a, w, events[0]);
      HistoryKeepsInv(a, Next(w, events[0]), events[1..]);
    }
  }

  // ---------------------------------------------------------------------- the theorems

  ghost predicate Reachable(a: Account, start: World, events: seq<Event>) { Inv(a, start) && AllAllowed(a, start, events) }

  /** A scan left this message out because it does not match. */
  predicate ScanMissed(a: Account, scans: map<string, Scan>, m: Letter) { m.id in scans && !Matches(a, scans[m.id], m) }

  lemma MissedIs(a: Account, box: Box, scans: map<string, Scan>, m: Letter)
    requires ValidBox(a, box) && Misses(a, box, scans) && m in box.log && m.id in scans
    ensures ScanMissed(a, scans, m)
  {
    var n :| n in box.log && n.id == m.id && !Matches(a, scans[m.id], n);
    var i, j :| 0 <= i < |box.log| && 0 <= j < |box.log| && box.log[i] == m && box.log[j] == n;
    assert i == j;
  }

  /** What became of a message that no run will ask for again. */
  ghost predicate AccountedFor(a: Account, w: World, m: Letter) {
    || m.id in w.vanished || m.id in w.excluded || ScanMissed(a, w.outside, m) || ScanMissed(a, w.late, m)
    || (m.id in w.fates
        && (FateKept(a.names, m.id, w.fates[m.id], w.files, w.parked) || IsTorn(m.id, w.fates[m.id], w.torn)))
  }

  lemma DoneIsAccountedFor(a: Account, w: World, m: Letter)
    requires Inv(a, w) && m in w.box.log && m.id in Done(w)
    ensures AccountedFor(a, w, m)
  {
    if m.id in w.outside {
      MissedIs(a, w.box, w.outside, m);
    }
    if m.id in w.late {
      MissedIs(a, w.box, w.late, m);
    }
  }

  /** No message at or below the history cursor is forgotten: after any history it was settled
      (and its fate is kept), or was deleted or in Spam or Trash as the cursor passed it, or does not
      match the first run's scan, or a later one's, that left it out. */
  lemma PassedIsSettled(a: Account, start: World, events: seq<Event>, m: Letter)
    requires Reachable(a, start, events)
    requires var w := After(start, events); m in w.box.log && 0 < m.hid <= w.st.historyId
    ensures AccountedFor(a, After(start, events), m)
  {
    HistoryKeepsInv(a, start, events);
    DoneIsAccountedFor(a, After(start, events), m);
  }

  /** The two watermarks agree: every message is accounted for, or is above the cursor and would be
      listed by the scan that replaces the cursor should it expire. */
  lemma RecoveryMissesNothing(a: Account, start: World, events: seq<Event>, m: Letter, o: Options, now: int)
    requires Reachable(a, start, events)
    requires var w := After(start, events); m in w.box.log && !FirstEver(w.st)
    ensures var w := After(start, events);
            || AccountedFor(a, w, m)
            || (Matches(a, ScanQuery(o, w.st, false, now), m) && (w.st.historyId > 0 ==> m.hid > w.st.historyId))
  {
    HistoryKeepsInv(a, start, events);
    if m.id in Done(After(start, events)) {
      DoneIsAccountedFor(a, After(start, events), m);
    }
  }

  /** A state with neither watermark, in an account that had one: the next run would take itself
      for the first. */
  predicate Relapsed(w: World) { w.synced && FirstEver(w.st) }

  /** A run is stopped while one more message is on offer, and its state reaches the disk: known
      from its script, its policies and what it has to offer. */
  ghost predicate StoppedAndSaved(w: World, e: Event) {
    && e.Run? && !Skips(CycleOf(e)) && !Holds(CycleOf(e)) && !e.cfg.dryRun && !e.saveFails
    && StopsAmong(CycleOf(e), GmailOffered(e.o, e.session, w.st))
  }

  lemma StopsAreSaved(w: World, e: Event)
    ensures StoppedAndSaved(w, e) <==> Saved(w, e) && FetchOf(w, e).end.Declined?
  {
    if e.Run? {
      GmailFetchHands(e.o, e.session, w.st, CycleOf(e), Begin(w.files, w.parked));
      StopsExactly(CycleOf(e), Begin(w.files, w.parked), GmailOffered(e.o, e.session, w.st));
    }
  }

  /** A run whose stored cursor has expired. */
  predicate Expired(w: World, e: Event) { e.Run? && w.st.historyId > 0 && e.session.historyWalk.NotFound? }

  /** Exactly how an account relapses: a run whose cursor has expired and that stored no watermark
      is stopped and saved. */
  lemma RelapseExactly(a: Account, w: World, e: Event)
    requires Inv(a, w) && Allowed(a, w, e) && !Relapsed(w)
    ensures Relapsed(Next(w, e)) <==> StoppedAndSaved(w, e) && Expired(w, e) && w.st.lastSync == None
  {
    StopsAreSaved(w, e);
    if Saved(w, e) && FetchOf(w, e).end.Done? {
      CompletionPair(a, w, e);
    }
  }

  /** Exactly when a run leaves a lower cursor than it found: a recovery from an expired one that is
      stopped and saved leaves none at all. */
  lemma CursorShrinksExactly(a: Account, w: World, e: Event)
    requires Inv(a, w) && Allowed(a, w, e)
    ensures Next(w, e).st.historyId < w.st.historyId <==> StoppedAndSaved(w, e) && Expired(w, e)
    ensures Next(w, e).st.historyId < w.st.historyId ==> Next(w, e).st.historyId == 0
  {
    StopsAreSaved(w, e);
    if e.Run? && Incrementally(w.st, e.session) {
      HighestFrom(e.session.history, w.st.historyId, 0);
    }
  }

  /** Nothing is left out late by any run but one that follows a relapse. */
  lemma LateOnlyAfterRelapse(a: Account, w: World, e: Event)
    requires Inv(a, w) && Allowed(a, w, e)
    ensures Next(w, e).late == w.late || (Relapsed(w) && Saved(w, e) && FetchOf(w, e).end.Done?)
  {
    StepLeaves(w, e);
    if Saved(w, e) && FetchOf(w, e).end.Done? && !FirstEver(w.st) {
      OnlyFirstScansLeave(a, w, e);
      LeavesNothing(w, e, w.late);
    }
  }

  /** A cursor is always stored with its watermark. */
  predicate Paired(w: World) {
    (w.synced <==> w.st.lastSync.Some?) && (w.st.lastSync == None ==> w.st.historyId == 0)
  }

  lemma PairedStays(a: Account, w: World, e: Event)
    requires Inv(a, w) && Allowed(a, w, e) && Paired(w)
    ensures Paired(Next(w, e)) && Next(w, e).late == w.late
  {
    LateOnlyAfterRelapse(a, w, e);
    StepPairs(w, e);
    if Saved(w, e) && FetchOf(w, e).end.Done? {
      CompletionPair(a, w, e);
    }
  }

  /** What a step does to the pair and to the mark that a run has completed. */
  lemma StepPairs(w: World, e: Event)
    ensures var w' := Next(w, e);
            && (!Saved(w, e) ==> w'.st == w.st && w'.synced == w.synced)
            && (Saved(w, e) && !FetchOf(w, e).end.Done? ==>
                  w'.st.lastSync == w.st.lastSync && w'.synced == w.synced && w'.st.historyId <= w.st.historyId)
            && (Saved(w, e) && FetchOf(w, e).end.Done? ==>
                  w'.synced && w'.st.historyId == FetchOf(w, e).st.historyId && w'.st.lastSync == FetchOf(w, e).st.lastSync)
  {
  }

  lemma {:induction false} PairedHistory(a: Account, w: World, events: seq<Event>)
    requires Reachable(a, w, events) && Paired(w)
    ensures Paired(After(w, events)) && After(w, events).late == w.late
    decreases |events|
  {
    if events != [] {
      StepKeepsInv(a, w, events[0]);
      PairedStays(a, w, events[0]);
      PairedHistory(a, Next(w, events[0]), events[1..]);
    }
  }

  /** Before the first run of an account. */
  ghost predicate Fresh(a: Account, w: World) {
    && Named(a.names, a.account, a.ids) && a.skew + a.drift <= RECOVERY_OVERLAP
    && ValidBox(a, w.box) && OwnFiles(a.names, a.ids, w.files)
    && w.st == NEVER_SYNCED && w.fates == map[] && Done(w) == {} && w.torn == {} && !w.synced
  }

  /** The scan of a run that takes itself for the first. */
  function FirstScanOf(e: Event): Scan
    requires e.Run?
  {
    Scan(TrimSpace(e.o.query), if e.o.lookback > 0 then Some(e.session.scanNow - e.o.lookback) else None)
  }

  /** The scan of the first run of a history that completed and was saved: its query, and its
      lookback if it has one. */
  function FirstScan(w: World, events: seq<Event>): Option<Scan>
    decreases |events|
  {
    if events == [] then None
    else
      var e := events[0];
      if Saved(w, e) && FetchOf(w, e).end.Done? then
        Some(FirstScanOf(e))
      else FirstScan(Next(w, e), events[1..])
  }

  lemma {:induction false} OutsideStays(w: World, events: seq<Event>)
    requires w.synced
    ensures After(w, events).outside == w.outside
    decreases |events|
  {
    if events != [] {
      OutsideStays(Next(w, events[0]), events[1..]);
    }
  }

  lemma StaysUnsynced(w: World, e: Event)
    requires !(Saved(w, e) && FetchOf(w, e).end.Done?)
    ensures Next(w, e).synced == w.synced && Next(w, e).outside == w.outside
  {
  }

  lemma FirstLeaves(w: World, e: Event)
    requires Saved(w, e) && FetchOf(w, e).end.Done? && !w.synced && w.outside == map[] && FirstEver(w.st)
    ensures Next(w, e).synced
    ensures forall id | id in Next(w, e).outside :: Next(w, e).outside[id] == FirstScanOf(e)
  {
    StepLeaves(w, e);
  }

  /** Whatever a history leaves outside, its first scan left. */
  lemma {:induction false} OutsideIsFirst(a: Account, w: World, events: seq<Event>, id: string)
    requires Reachable(a, w, events) && Paired(w) && !w.synced && w.outside == map[] && id in After(w, events).outside
    ensures FirstScan(w, events) == Some(After(w, events).outside[id])
    decreases |events|
  {
    if events != [] {
      var e := events[0];
      StepKeepsInv(a, w, e);
      PairedStays(a, w, e);
      if Saved(w, e) && FetchOf(w, e).end.Done? {
        FirstLeaves(w, e);
        OutsideStays(Next(w, e), events[1..]);
      } else {
        StaysUnsynced(w, e);
        assert FirstScan(w, events) == FirstScan(Next(w, e), events[1..]);
        OutsideIsFirst(a, Next(w, e), events[1..], id);
      }
    }
  }

  /** No message is both undelivered and forgotten: from a first run on, across any stops, aborts,
      crashes, degraded lists and expired cursors, whatever the cursor has passed was settled and
      its fate kept, was deleted, was in Spam or Trash, or fails the query or the lookback of the
      first scan. */
  lemma NothingIsForgotten(a: Account, start: World, events: seq<Event>, m: Letter)
    requires Fresh(a, start) && AllAllowed(a, start, events)
    requires var w := After(start, events); m in w.box.log && 0 < m.hid <= w.st.historyId
    ensures var w := After(start, events);
            || m.id in w.vanished || m.id in w.excluded
            || (FirstScan(start, events).Some? && !Matches(a, FirstScan(start, events).value, m))
            || (m.id in w.fates
                && (FateKept(a.names, m.id, w.fates[m.id], w.files, w.parked) || IsTorn(m.id, w.fates[m.id], w.torn)))
  {
    PairedHistory(a, start, events);
    PassedIsSettled(a, start, events, m);
    if m.id in After(start, events).outside {
      OutsideIsFirst(a, start, events, m.id);
    }
  }

  // --------------------------------------------------------------- torn quarantine copies

  /** A run tears the quarantine copy of this message: it is the first on offer that is refused, and
      the write that parks it fails partway. */
  ghost predicate TearsIn(w: World, e: Event, id: string) {
    e.Run? && !Skips(CycleOf(e)) && Tears(CycleOf(e), GmailOffered(e.o, e.session, w.st), id)
  }

  lemma FetchTearsExactly(w: World, e: Event, id: string)
    requires e.Run?
    ensures id in FetchOf(w, e).p.torn <==> Tears(CycleOf(e), GmailOffered(e.o, e.session, w.st), id)
    ensures id in FetchOf(w, e).p.torn ==>
              FetchOf(w, e).end == Declined(Refuse, id) && exists raw :: raw in GmailOffered(e.o, e.session, w.st) && raw.id == id
  {
    var cyc, p, raws := CycleOf(e), Begin(w.files, w.parked), GmailOffered(e.o, e.session, w.st);
    GmailFetchHands(e.o, e.session, w.st, cyc, p);
    TearsExactly(cyc, p, raws, id);
    HandleAllEnds(cyc, p, raws);
    if n: nat :| TearsAt(cyc, raws, n, id) {
      var (_, taken, v) := HandleAll(cyc, p, raws);
      assert raws[n] in raws;
      if v != Accept {
        OneEnd(cyc, 0, raws, n, Refuse, LastIndex(taken, v), v);
      }
    }
  }

  lemma {:induction false} OfferedIsUnseen(o: Options, s: Session, k: nat, raw: RawMessage)
    requires k <= |s.answers| && raw in DrainOffered(o, s, k)
    ensures Got(raw) in s.answers
    decreases |s.answers| - k
  {
    if k < |s.answers| && s.answers[k] != Got(raw) {
      OfferedIsUnseen(o, s, k + 1, raw);
    }
  }

  /** Exactly when a run adds a message to the torn ones; it is then not saved, was refused on that
      very message, and the bounded seen set had forgotten it. */
  lemma TearsOnlyTheForgotten(a: Account, w: World, e: Event, id: string)
    requires Allowed(a, w, e)
    ensures id !in w.torn ==> (id in Next(w, e).torn <==> TearsIn(w, e, id))
    ensures TearsIn(w, e, id) ==> id in Next(w, e).torn && !Saved(w, e) && id !in w.st.seen && FetchOf(w, e).end == Declined(Refuse, id)
  {
    if e.Run? && !Skips(CycleOf(e)) {
      FetchTearsExactly(w, e, id);
      if TearsIn(w, e, id) {
        var raw :| raw in GmailOffered(e.o, e.session, w.st) && raw.id == id;
        OfferedIsUnseen(e.o, e.session, 0, raw);
        assert AnswerId(Got(raw)) == id;
      }
    }
  }

  /** Whether the copy is still there once a run has been made is whether the run did not tear it. */
  lemma FetchKeepsCopy(a: Account, w: World, e: Event, id: string)
    requires e.Run? && Inv(a, w) && Allowed(a, w, e) && id in a.ids && InPlace(a.names, w.parked, id)
    ensures InPlace(a.names, FetchOf(w, e).p.parked, id) <==> !Tears(CycleOf(e), GmailOffered(e.o, e.session, w.st), id)
  {
    var cyc, p, raws := CycleOf(e), Begin(w.files, w.parked), GmailOffered(e.o, e.session, w.st);
    NamesDecide(a.names, e.cfg, a.ids, w.files);
    GmailFetchHands(e.o, e.session, w.st, cyc, p);
    forall raw | raw in raws ensures raw.id in a.ids {
      OfferedIsUnseen(e.o, e.session, 0, raw);
      assert AnswerHonest(a, e, Got(raw));
    }
    CopySurvivesExactly(cyc, p, raws, a.ids, id);
  }

  /** Exactly when a run costs a settled message its quarantine copy: when it tears that copy. */
  lemma CopyLostExactly(a: Account, w: World, e: Event, id: string)
    requires Inv(a, w) && Allowed(a, w, e)
    requires id in w.fates && w.fates[id].outcome.Parked? && FateKept(a.names, id, w.fates[id], w.files, w.parked)
    ensures var w' := Next(w, e);
            id in w'.fates && (FateKept(a.names, id, w'.fates[id], w'.files, w'.parked) <==> !TearsIn(w, e, id))
  {
    if e.Run? && !Skips(CycleOf(e)) {
      FetchKeepsCopy(a, w, e, id);
      FetchTearsExactly(w, e, id);
      if Saved(w, e) {
        StepKeepsCore(a, w, e);
        FetchTears(a, w, e);
        SavedFateKept(a, w, e, id);
      } else {
        UnsavedKeepsFates(w, e);
      }
    }
  }

  lemma UnsavedKeepsFates(w: World, e: Event)
    requires e.Run? && !Skips(CycleOf(e)) && !Saved(w, e)
    ensures Next(w, e).fates == w.fates && Next(w, e).parked == FetchOf(w, e).p.parked && Next(w, e).st == w.st
  {
  }

  /** What a run leaves on disk. */
  lemma NextOnDisk(w: World, e: Event)
    requires e.Run? && !Skips(CycleOf(e))
    ensures var w', f := Next(w, e), FetchOf(w, e);
            && w'.st == (if Saved(w, e) then f.st.(seen := MarkedAll(f.st.seen, f.p.accounted)) else w.st)
            && w'.files == f.p.files && w'.parked == f.p.parked
  {
  }

  lemma SavedRecords(w: World, e: Event)
    requires Saved(w, e)
    ensures var w', p := Next(w, e), FetchOf(w, e).p;
            w'.fates == w.fates + p.fates && w'.files == p.files && w'.parked == p.parked && w'.torn == w.torn - p.fates.Keys
  {
  }

  lemma SavedFateKept(a: Account, w: World, e: Event, id: string)
    requires Saved(w, e) && Core(a, Next(w, e)) && id in w.fates
    requires InPlace(a.names, FetchOf(w, e).p.parked, id) && w.fates[id].outcome.Parked? && w.fates[id].outcome.path == a.names.parkingPath(id)
    ensures var w' := Next(w, e); id in w'.fates && FateKept(a.names, id, w'.fates[id], w'.files, w'.parked)
  {
    SavedRecords(w, e);
    var w', fates := Next(w, e), FetchOf(w, e).p.fates;
    assert w'.fates[id] == if id in fates then fates[id] else w.fates[id];
    assert FatesKept(a.names, w'.fates, w'.files, w'.parked, w'.torn);
  }

  /** The message of the example, and the state that has passed it. */
  const PASSED := Letter("m", 1, 0, 0)

  const PASSED_STATE := State(2, Some(0), map[], [])

  /** A message parked earlier, passed by the cursor, and since forgotten by the bounded seen set. */
  function Forgotten(a: Account, judged: Cycle): World {
    var path := a.names.parkingPath("m");
    World(Box([PASSED], 2, 0), PASSED_STATE, map[], map[path := "m"],
          map["m" := Fate(Parked(path), judged)], {}, {}, map[], map[], {}, true)
  }

  /** The cursor has expired, the recovery scan lists the message again, and the disk is full as it is
      parked again. */
  function TearingRun(a: Account, o: Options, clock: nat -> int): Event {
    var box := Box([PASSED], 2, 0);
    Run(o, a.names.(parse := (_: RawMessage) => None, onFailure := QuarantineIt, dryRun := false), EMPTY_CACHE,
        Script(None, clock, (_: nat, _: nat) => false, (_: nat) => ParkTears),
        Session(0, 0, 0, [], NotFound, Some(2), [["m"]], Complete, false, false,
                [Got(RawMessage("m", "", [], 0, []))], false),
        box, box, box, {}, {}, false)
  }

  lemma TearingRunOffers(a: Account, o: Options, clock: nat -> int)
    ensures var e := TearingRun(a, o, clock); GmailOffered(o, e.session, PASSED_STATE) == [RawMessage("m", "", [], 0, [])]
    ensures ListedIds(TearingRun(a, o, clock).session.listing) == ["m"]
  {
    var e, raw := TearingRun(a, o, clock), RawMessage("m", "", [], 0, []);
    assert e.session.listing[1..] == [] && ["m"][1..] == [];
    assert NonBlank(["m"]) == ["m"];
    assert Dedup(["m"]) == ["m"] && Pending(["m"], []) == ["m"];
    assert !Excluded(o, raw);
    assert DrainOffered(o, e.session, 1) == [];
    assert [raw] + [] == [raw];
  }

  ghost predicate Tearable(a: Account, judged: Cycle) {
    && Named(a.names, a.account, a.ids) && a.skew + a.drift <= RECOVERY_OVERLAP && "m" in a.ids
    && judged.lists == EMPTY_CACHE
  }

  lemma ForgottenIsInv(a: Account, judged: Cycle)
    requires Tearable(a, judged)
    ensures Inv(a, Forgotten(a, judged))
  {
    var w := Forgotten(a, judged);
    assert FateKept(a.names, "m", w.fates["m"], w.files, w.parked);
  }

  lemma TearingRunIsAllowed(a: Account, o: Options, clock: nat -> int, judged: Cycle)
    requires Tearable(a, judged)
    ensures Allowed(a, Forgotten(a, judged), TearingRun(a, o, clock))
  {
    var e, raw := TearingRun(a, o, clock), RawMessage("m", "", [], 0, []);
    TearingRunOffers(a, o, clock);
    assert e.session.answers == [Got(raw)] && AnswerId(Got(raw)) == "m" && AnswerHonest(a, e, Got(raw));
    forall id | id in Listed(PASSED_STATE, e.session) && id != ""
      ensures exists answer | answer in e.session.answers :: AnswerId(answer) == id
    {
      assert Got(raw) in e.session.answers;
    }
    assert DownloadHonest(a, PASSED_STATE, e);
  }

  /** The message is settled and the cursor has passed it, and after one more run it is neither
      delivered nor in quarantine; a next run like this one asks for it again. */
  lemma TearingLosesCopy(a: Account, o: Options, clock: nat -> int, judged: Cycle)
    requires Tearable(a, judged)
    ensures Reachable(a, Forgotten(a, judged), [TearingRun(a, o, clock)])
    ensures var w := After(Forgotten(a, judged), [TearingRun(a, o, clock)]);
            && PASSED in w.box.log && 0 < PASSED.hid <= w.st.historyId
            && "m" in w.fates && !FateKept(a.names, "m", w.fates["m"], w.files, w.parked) && IsTorn("m", w.fates["m"], w.torn)
            && AsksFor(w, TearingRun(a, o, clock), "m")
  {
    var start, e, raw := Forgotten(a, judged), TearingRun(a, o, clock), RawMessage("m", "", [], 0, []);
    ForgottenIsInv(a, judged);
    TearingRunIsAllowed(a, o, clock, judged);
    TearingRunOffers(a, o, clock);
    assert VerdictAt(CycleOf(e), 0, raw) == Refuse;
    assert TearsAt(CycleOf(e), [raw], 0, "m");
    CopyLostExactly(a, start, e, "m");
    TearsOnlyTheForgotten(a, start, e, "m");
    UnsavedKeepsFates(start, e);
    assert [e][1..] == [] && After(start, [e]) == Next(start, e);
    assert AllAllowed(a, start, [e]) by {
      assert AllAllowed(a, Next(start, e), []);
    }
    AsksForTheUnseen(Next(start, e), e, "m");
  }

  // ---------------------------------------------------------------------- offered again

  /** A run sets out to fetch this message. */
  predicate AsksFor(w: World, e: Event, id: string)
    requires e.Run?
  {
    id in Pending(Dedup(Listed(w.st, e.session)), w.st.seen)
  }

  lemma StillListed(a: Account, w: World, next: Event, m: Letter)
    requires Inv(a, w) && Allowed(a, w, next) && m in w.box.log && m.id !in Done(w) && next.Run?
    ensures m in next.listed.log && (w.st.historyId > 0 ==> m.hid > w.st.historyId)
    ensures w.st.lastSync.Some? ==> m.date >= w.st.lastSync.value - RECOVERY_OVERLAP
  {
    GrowsReaches(a, w.box, next.sampled, next.listed);
  }

  /** What is not accounted for a run that gets as far as its listing finds there. */
  lemma ListsTheRest(a: Account, w: World, next: Event, m: Letter)
    requires Inv(a, w) && Allowed(a, w, next) && m in w.box.log && m.id !in Done(w)
    requires next.Run? && (Incrementally(w.st, next.session) || ScansInstead(w.st, next.session))
    requires m.id !in next.gone && !Hidden(next, m.id)
    ensures m.id in Listed(w.st, next.session) || (FirstEver(w.st) && !Matches(a, ScanOf(next.o, w.st, next.session), m))
  {
    StillListed(a, w, next, m);
    if Incrementally(w.st, next.session) {
      assert HistoryHonest(w.st, next);
    } else {
      assert ListingHonest(a, w.st, next);
      assert !FirstEver(w.st) ==> Matches(a, ScanOf(next.o, w.st, next.session), m);
    }
  }

  lemma AsksForTheUnseen(w: World, e: Event, id: string)
    requires e.Run? && id in Listed(w.st, e.session) && id != "" && id !in w.st.seen
    ensures AsksFor(w, e, id)
  {
    AddAllCollects([], Listed(w.st, e.session));
    PendingIs(Dedup(Listed(w.st, e.session)), w.st.seen);
  }

  /** Listings that name nothing but what they are asked for, and a download of nothing else. */
  ghost predicate NamesOnlyMatches(a: Account, st: State, e: Event)
    requires e.Run?
  {
    && (forall m | m in e.listed.log && m.id in Listed(st, e.session) :: ShouldList(a, st, e, m))
    && (forall answer | answer in e.session.answers && answer.Got? :: answer.raw.id in Listed(st, e.session))
  }

  /** What the route a run takes is meant to list. */
  predicate ShouldList(a: Account, st: State, e: Event, m: Letter)
    requires e.Run?
  {
    if Incrementally(st, e.session) then m.hid > st.historyId else Matches(a, ScanOf(e.o, st, e.session), m)
  }

  /** With such listings, exactly what a run that gets as far asks for. */
  lemma AskedExactly(a: Account, w: World, e: Event, m: Letter)
    requires Allowed(a, w, e) && e.Run? && NamesOnlyMatches(a, w.st, e)
    requires Incrementally(w.st, e.session) || ScansInstead(w.st, e.session)
    requires m in e.listed.log && m.id !in e.gone && !Hidden(e, m.id)
    ensures AsksFor(w, e, m.id) <==> m.id !in w.st.seen && ShouldList(a, w.st, e, m)
  {
    AddAllCollects([], Listed(w.st, e.session));
    PendingIs(Dedup(Listed(w.st, e.session)), w.st.seen);
    if Incrementally(w.st, e.session) {
      assert HistoryHonest(w.st, e);
    } else {
      assert ListingHonest(a, w.st, e);
    }
  }

  /** A message whose quarantine copy a run tore is asked for again exactly if the next run's route
      is meant to list it; and it is, while the route stays the same and this is no first scan. */
  lemma TornIsAskedForAgain(a: Account, w: World, e: Event, next: Event, m: Letter)
    requires Inv(a, w) && Allowed(a, w, e) && TearsIn(w, e, m.id) && Allowed(a, Next(w, e), next) && next.Run?
    requires NamesOnlyMatches(a, w.st, e) && NamesOnlyMatches(a, w.st, next)
    requires Incrementally(w.st, next.session) || ScansInstead(w.st, next.session)
    requires m in e.listed.log && m.id !in next.gone && !Hidden(next, m.id)
    ensures Next(w, e).st == w.st
    ensures AsksFor(Next(w, e), next, m.id) <==> ShouldList(a, w.st, next, m)
    ensures !FirstEver(w.st) && (Incrementally(w.st, e.session) <==> Incrementally(w.st, next.session)) ==>
              AsksFor(Next(w, e), next, m.id)
  {
    TearsOnlyTheForgotten(a, w, e, m.id);
    UnsavedSame(w, e);
    TornWasListed(w, e, m.id);
    assert ShouldList(a, w.st, e, m) by {
      assert forall answer | answer in e.session.answers && answer.Got? :: answer.raw.id in Listed(w.st, e.session);
    }
    GrowsReaches(a, e.listed, e.later, next.sampled);
    GrowsReaches(a, e.listed, next.sampled, next.listed);
    assert m in next.listed.log;
    AskedExactly(a, Next(w, e), next, m);
  }

  lemma TornWasListed(w: World, e: Event, id: string)
    requires TearsIn(w, e, id)
    ensures exists answer | answer in e.session.answers :: answer.Got? && answer.raw.id == id
  {
    FetchTearsExactly(w, e, id);
    var raw :| raw in GmailOffered(e.o, e.session, w.st) && raw.id == id;
    OfferedIsUnseen(e.o, e.session, 0, raw);
    assert Got(raw) in e.session.answers;
  }

  lemma UnsavedLeaves(a: Account, w: World, e: Event)
    requires Allowed(a, w, e) && !Saved(w, e)
    ensures Next(w, e).st == w.st && Done(Next(w, e)) == Done(w)
    ensures forall m | m in w.box.log :: m in Next(w, e).box.log
  {
    UnsavedSame(w, e);
    LaterBox(a, w, e);
    assert w.box.log <= e.later.log;
  }

  /** Whatever a run that is not saved did not settle is asked for again: one held or refused because
      a list is degraded, or lost in any other way. Only a first scan may leave it out, if it does
      not match. */
  lemma UnsavedIsOfferedAgain(a: Account, w: World, e: Event, next: Event, m: Letter)
    requires Inv(a, w) && Allowed(a, w, e) && !Saved(w, e) && Allowed(a, Next(w, e), next)
    requires m in w.box.log && m.id !in Done(w)
    requires next.Run? && (Incrementally(w.st, next.session) || ScansInstead(w.st, next.session))
    requires m.id !in next.gone && !Hidden(next, m.id)
    ensures Next(w, e).st == w.st && m.id !in Done(Next(w, e))
    ensures AsksFor(Next(w, e), next, m.id) || (FirstEver(w.st) && !Matches(a, ScanOf(next.o, w.st, next.session), m))
  {
    UnsavedLeaves(a, w, e);
    StepKeepsInv(a, w, e);
    ListsTheRest(a, Next(w, e), next, m);
    if m.id in Listed(w.st, next.session) {
      AsksForTheUnseen(Next(w, e), next, m.id);
    }
  }

  // -------------------------------------------------------------------- where fates are from

  /** Every fate a history settles was settled in one of its own runs, one whose state was saved. */
  lemma {:induction false} FatesAreOfRuns(w: World, events: seq<Event>, id: string) returns (i: nat)
    requires id in After(w, events).fates
    ensures i <= |events|
    ensures i == |events| ==> id in w.fates && After(w, events).fates[id] == w.fates[id]
    ensures i < |events| ==> Saved(After(w, events[..i]), events[i])
    ensures i < |events| ==> var f := FetchOf(After(w, events[..i]), events[i]); id in f.p.fates && After(w, events).fates[id] == f.p.fates[id]
    decreases |events|
  {
    i := |events|;
    if events != [] {
      var next := Next(w, events[0]);
      var k := FatesAreOfRuns(next, events[1..], id);
      if k < |events| - 1 {
        i := k + 1;
        assert events[..i][1..] == events[1..][..k] && events[..i][0] == events[0] && events[1..][k] == events[i];
      } else {
        StepSettles(w, events[0], id);
        if Saved(w, events[0]) && id in FetchOf(w, events[0]).p.fates {
          i := 0;
          assert events[..0] == [];
        }
      }
    }
  }

  lemma {:induction false} PrefixAllowed(a: Account, w: World, events: seq<Event>, i: nat)
    requires AllAllowed(a, w, events) && i < |events|
    ensures AllAllowed(a, w, events[..i]) && Allowed(a, After(w, events[..i]), events[i])
    decreases |events|
  {
    if i == 0 {
      assert events[..0] == [];
    } else {
      PrefixAllowed(a, Next(w, events[0]), events[1..], i - 1);
      assert events[..i][1..] == events[1..][..i - 1] && events[..i][0] == events[0];
    }
  }

  /** Any run of a history is one its account can come to. */
  lemma AllowedAt(a: Account, w: World, events: seq<Event>, i: nat)
    requires Inv(a, w) && AllAllowed(a, w, events) && i < |events|
    ensures Inv(a, After(w, events[..i])) && Allowed(a, After(w, events[..i]), events[i])
  {
    PrefixAllowed(a, w, events, i);
    HistoryKeepsInv(a, w, events[..i]);
  }

  /** A saved run settles each message in its own cycle, by its own rules and lists, and not while its
      policy holds or refuses degraded ones. */
  lemma RunJudges(a: Account, start: World, events: seq<Event>, i: nat, id: string)
    requires Inv(a, start) && AllAllowed(a, start, events) && i < |events| && Saved(After(start, events[..i]), events[i])
    requires id in FetchOf(After(start, events[..i]), events[i]).p.fates
    ensures var fate, cyc := FetchOf(After(start, events[..i]), events[i]).p.fates[id], CycleOf(events[i]);
            && fate.cyc == cyc && !Skips(cyc) && !Holds(cyc)
            && (fate.outcome.Unmatched? ==> cyc.cfg.evaluate(fate.outcome.msg, fate.outcome.now, cyc.lists) == None)
            && (fate.outcome.Rendered? ==> cyc.cfg.evaluate(fate.outcome.msg, fate.outcome.now, cyc.lists) == Some(fate.outcome.rule))
  {
    AllowedAt(a, start, events, i);
    var w, e := After(start, events[..i]), events[i];
    FetchAdvances(a, w, e);
    assert FatesKept(e.cfg, FetchOf(w, e).p.fates, FetchOf(w, e).p.files, FetchOf(w, e).p.parked, FetchOf(w, e).p.torn);
  }

  lemma StepSettles(w: World, e: Event, id: string)
    requires id in Next(w, e).fates
    ensures if Saved(w, e) && id in FetchOf(w, e).p.fates then Next(w, e).fates[id] == FetchOf(w, e).p.fates[id]
            else id in w.fates && Next(w, e).fates[id] == w.fates[id]
  {
    if Saved(w, e) {
      SavedRecords(w, e);
    } else {
      UnsavedSame(w, e);
    }
  }

  // ------------------------------------------------------------------------- a relapse

  /** A state file that holds a cursor and no watermark, and one message since that cursor. */
  function Unmarked(): World {
    World(Box([Letter("m", 2, 0, 0)], 2, 0), State(1, None, map[], []), map[], map[], map[], {}, {}, map[], map[], {}, true)
  }

  /** The cursor has expired; the recovery scan lists the message and is stopped as it is offered. */
  function StoppedRecovery(o: Options, cfg: Config, clock: nat -> int): Event {
    var box := Unmarked().box;
    Run(o, cfg, EMPTY_CACHE, Script(Some(0), clock, (_: nat, _: nat) => false, (_: nat) => Parks),
        Session(0, 0, 0, [], NotFound, Some(2), [["m"]], Complete, false, false,
                [Got(RawMessage("m", "", [], 0, []))], true),
        box, box, box, {}, {}, false)
  }

  /** Some time later a run takes itself for the first: its lookback no longer reaches the message. */
  function LaterRun(o: Options, cfg: Config, clock: nat -> int, later: nat): Event {
    var box := Unmarked().box.(now := later);
    Run(o, cfg, EMPTY_CACHE, Script(None, clock, (_: nat, _: nat) => false, (_: nat) => Parks),
        Session(0, 0, later, [], Complete, Some(2), [[]], Complete, false, false, [], false),
        box, box, box, {}, {}, false)
  }

  ghost predicate LooksBack(a: Account, o: Options) {
    && Named(a.names, a.account, a.ids) && !a.names.dryRun && a.skew + a.drift <= RECOVERY_OVERLAP
    && "m" in a.ids && o.lookback > 0
  }

  lemma UnmarkedIsInv(a: Account, o: Options)
    requires LooksBack(a, o)
    ensures Inv(a, Unmarked())
  {
  }

  lemma RecoveryStops(a: Account, o: Options, clock: nat -> int)
    requires LooksBack(a, o)
    ensures var e := StoppedRecovery(o, a.names, clock);
            && Allowed(a, Unmarked(), e)
            && FetchOf(Unmarked(), e) == Fetched(NEVER_SYNCED, Begin(map[], map[]), Declined(Stop, "m"))
  {
    var w, e := Unmarked(), StoppedRecovery(o, a.names, clock);
    assert e.session.listing[1..] == [] && NonBlank(["m"]) == ["m"] && ListedIds([["m"]]) == ["m"];
    assert Dedup(["m"]) == ["m"] && Pending(["m"], []) == ["m"];
    var p := Begin(map[], map[]);
    assert StopSeen(CycleOf(e), p);
    assert Drain(o, e.session, 0, [], CycleOf(e), p) == Downloaded([], p, Declined(Stop, "m"));
  }

  lemma LaterRunCompletes(a: Account, o: Options, w: World, clock: nat -> int, later: nat)
    requires LooksBack(a, o) && w == Unmarked().(st := NEVER_SYNCED) && later > o.lookback
    ensures var e := LaterRun(o, a.names, clock, later);
            && Allowed(a, w, e)
            && FetchOf(w, e) == Fetched(State(2, Some(0), map[], []), Begin(map[], map[]), End.Done)
  {
    var e := LaterRun(o, a.names, clock, later);
    assert e.session.listing[1..] == [] && ListedIds([[]]) == [];
    assert forall m | m in e.listed.log :: !Matches(a, ScanOf(e.o, w.st, e.session), m);
  }

  lemma StoppedRecoveryRelapses(a: Account, o: Options, clock: nat -> int)
    requires LooksBack(a, o)
    ensures Next(Unmarked(), StoppedRecovery(o, a.names, clock)) == Unmarked().(st := NEVER_SYNCED)
    ensures NEVER_SYNCED.historyId < Unmarked().st.historyId
  {
    RecoveryStops(a, o, clock);
  }

  lemma LaterRunForgets(a: Account, o: Options, w: World, clock: nat -> int, later: nat)
    requires LooksBack(a, o) && w == Unmarked().(st := NEVER_SYNCED) && later > o.lookback
    ensures var w' := Next(w, LaterRun(o, a.names, clock, later)); w'.st.historyId == 2 && w'.late.Keys == {"m"} && w'.fates == map[]
  {
    var e := LaterRun(o, a.names, clock, later);
    LaterRunCompletes(a, o, w, clock, later);
    assert Letter("m", 2, 0, 0) in e.listed.log;
    assert Left(w, e) == {"m"};
  }

  /** What a relapse costs: the message is behind the new cursor, was never offered to completion,
      and nothing will ask for it again. */
  lemma RelapseLosesMail(a: Account, o: Options, clock: nat -> int, later: nat)
    requires LooksBack(a, o) && later > o.lookback
    ensures Reachable(a, Unmarked(), [StoppedRecovery(o, a.names, clock), LaterRun(o, a.names, clock, later)])
    ensures var w := After(Unmarked(), [StoppedRecovery(o, a.names, clock), LaterRun(o, a.names, clock, later)]);
            w.st.historyId == 2 && w.late.Keys == {"m"} && w.fates == map[]
  {
    var start, first, second := Unmarked(), StoppedRecovery(o, a.names, clock), LaterRun(o, a.names, clock, later);
    var relapsed := start.(st := NEVER_SYNCED);
    UnmarkedIsInv(a, o);
    RecoveryStops(a, o, clock);
    StoppedRecoveryRelapses(a, o, clock);
    LaterRunCompletes(a, o, relapsed, clock, later);
    LaterRunForgets(a, o, relapsed, clock, later);
    assert [first, second][1..] == [second] && [second][1..] == [];
    assert After(relapsed, [second]) == Next(relapsed, second);
    assert AllAllowed(a, relapsed, [second]);
  }
}
