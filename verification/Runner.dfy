/** A whole cycle over every account, and how it stands to each account's own history
    (internal/pipeline/pipeline.go). */
module Runner {
  import opened Text
  import opened Mail
  import opened Filter
  import FilterEngine
  import opened Sync
  import opened Pipeline
  import opened PipelineTheorems
  import SinkNames
  import Quarantine
  import Imap
  import Gmail
  import ImapHistory
  import GmailHistory

  // -------------------------------------------------------------------- configuration

  /** The components wired together: the engine's first match, the sinks' paths, the quarantine's. */
  function Wired(account: string, onFailure: FailurePolicy, onDegraded: DegradedPolicy, dryRun: bool,
                 parse: RawMessage -> Option<Message>, rules: seq<FilterEngine.Rule>, libs: Filter.Libs,
                 names: SinkNames.Libs, root: string): Config
  {
    Config(account, onFailure, onDegraded, dryRun, parse,
           (msg: Message, now: int, lists: Cache) => FilterEngine.FirstMatch(rules, msg, Context(libs, now), lists),
           (msg: Message, dest: string, format: FilterEngine.Format) => SinkNames.PathFor(msg, dest, SinkNames.Ext(format), names),
           (id: string) => Quarantine.Path(root, account, id))
  }

  /** What one process runs with, whatever the account: the policies, the engine's rules, the
      libraries, the quarantine's root. */
  datatype Setup = Setup(
    onFailure: FailurePolicy, onDegraded: DegradedPolicy, dryRun: bool, parse: RawMessage -> Option<Message>,
    rules: seq<FilterEngine.Rule>, libs: Filter.Libs, names: SinkNames.Libs, root: string)
  {
    function For(account: string): Config { Wired(account, onFailure, onDegraded, dryRun, parse, rules, libs, names, root) }
  }

  /** No two of these ids are parked under one segment. */
  ghost predicate DistinctSegments(ids: set<string>) {
    forall a, b | a in ids && b in ids && Quarantine.SafeSegment(a) == Quarantine.SafeSegment(b) :: a == b
  }

  /** What the histories ask of names follows from what the names are made of: distinct digests,
      and distinct segments, on the ids in play. */
  lemma WiredNamesAreFaithful(cfg: Config, rules: seq<FilterEngine.Rule>, libs: Filter.Libs, names: SinkNames.Libs,
                              root: string, ids: set<string>)
    requires cfg == Wired(cfg.account, cfg.onFailure, cfg.onDegraded, cfg.dryRun, cfg.parse, rules, libs, names, root)
    requires SinkNames.DistinctIdentities(cfg.account, ids, names) && DistinctSegments(ids)
    ensures FaithfulNames(cfg, ids)
  {
    forall m: Message, n: Message, d, e, f, g |
      m.account == n.account == cfg.account && m.id in ids && n.id in ids && cfg.path(m, d, f) == cfg.path(n, e, g)
      ensures m.id == n.id && f == g
    {
      SinkNames.PathsIdentifyMessages(m, n, d, e, f, g, ids, names);
    }
    forall a, b | a in ids && b in ids && cfg.parkingPath(a) == cfg.parkingPath(b) ensures a == b {
      Quarantine.PathDeterminesSegment(root, cfg.account, a, b);
    }
  }

  /** Two ids in one quarantine lose one of two messages: names are never faithful to both. */
  lemma CollidingIdsAreNotFaithful(cfg: Config, rules: seq<FilterEngine.Rule>, libs: Filter.Libs, names: SinkNames.Libs,
                                   root: string, ids: set<string>, a: string, b: string)
    requires cfg == Wired(cfg.account, cfg.onFailure, cfg.onDegraded, cfg.dryRun, cfg.parse, rules, libs, names, root)
    requires a in ids && b in ids && a != b && Quarantine.SafeSegment(a) == Quarantine.SafeSegment(b)
    ensures !FaithfulNames(cfg, ids)
  {
    assert cfg.parkingPath(a) == cfg.parkingPath(b);
  }

  // ------------------------------------------------------------------------- one account

  datatype Remote =
    | ImapRemote(imapOptions: Imap.Options, imapSession: Imap.Session)
    | GmailRemote(gmailOptions: Gmail.Options, gmailSession: Gmail.Session)

  /** What one account has on disk. */
  datatype Stored = Stored(st: State, files: map<string, File>, parked: map<string, string>)

  /** One account's turn in a cycle, and what goes wrong in it; `stopsAfter` is whether a stop has
      been asked for, or the context cancelled, by the time it is over. */
  datatype Turn = Turn(
    account: string, script: Script, remote: Remote, loadFails: bool, providerFails: bool, saveFails: bool, stopsAfter: bool)

  /** The manifest of one turn. */
  datatype Report = Report(
    degraded: bool, held: bool, stopped: bool, failed: bool,
    summary: Summary, stored: seq<Entry>, skipped: seq<Entry>, quarantined: seq<QuarantineEntry>)

  function ReportOf(cyc: Cycle, held: bool, stopped: bool, failed: bool, p: Progress): Report {
    Report(cyc.lists.degraded != map[], held, stopped, failed, p.summary, p.stored, p.skipped, p.quarantined)
  }

  /** Where a fetch ends, with the provider's count of vanished messages in its manifest. */
  datatype Fetched = Fetched(st: State, p: Progress, ending: Ending)

  function WithVanished(p: Progress, n: nat): Progress { p.(summary := p.summary.(vanished := n)) }

  function Fetch(remote: Remote, st: State, cyc: Cycle, p: Progress): Fetched {
    match remote
    case ImapRemote(o, s) => var f := Imap.Fetch(o, s, st, cyc, p); Fetched(f.st, WithVanished(f.p, 0), Imap.Grade(f.end))
    case GmailRemote(o, s) =>
      var f := Gmail.Fetch(o, s, st, cyc, p);
      Fetched(f.st, WithVanished(f.p, Gmail.Vanished(o, s, st, cyc, p)), Gmail.Grade(f.end))
  }

  /** cycleAccount: what one turn leaves on disk, and what it reports. */
  function TurnOf(setup: Setup, t: Turn, lists: Cache, s: Stored): (Stored, Report) {
    var cyc, p := Cycle(setup.For(t.account), lists, t.script), Begin(s.files, s.parked);
    if t.loadFails || t.providerFails then (s, ReportOf(cyc, false, false, true, p))
    else
      var f := Fetch(t.remote, s.st, cyc, p);
      var st := f.st.(seen := MarkedAll(f.st.seen, f.p.accounted));
      var clean := f.ending.Completed? || f.ending.Stopped?;
      var saves := Saves(cyc, f.ending) && !t.saveFails;
      (Stored(if saves then st else s.st, f.p.files, f.p.parked),
       ReportOf(cyc, clean && !setup.dryRun && Holds(cyc), f.ending.Stopped?,
                !clean || (Saves(cyc, f.ending) && t.saveFails), f.p))
  }

  // --------------------------------------------------------------------------- the cycle

  /** The turns from the i-th on, each account with its own disk, until a stop. */
  function TurnsFrom(ts: seq<Turn>, turn: (Turn, Stored) -> (Stored, Report), i: nat, stores: seq<Stored>): (seq<Stored>, seq<Report>)
    requires i <= |ts| == |stores|
    decreases |ts| - i
  {
    if i == |ts| then (stores, [])
    else
      var (s, report) := turn(ts[i], stores[i]);
      if ts[i].stopsAfter then (stores[i := s], [report])
      else After(report, TurnsFrom(ts, turn, i + 1, stores[i := s]))
  }

  function After(report: Report, rest: (seq<Stored>, seq<Report>)): (seq<Stored>, seq<Report>) { (rest.0, [report] + rest.1) }

  /** A cycle ends at the first account after which a stop has been asked for. Each account before
      it has had exactly its own turn, and no account after it was touched. */
  lemma {:induction false} TurnsAreIndependent(ts: seq<Turn>, turn: (Turn, Stored) -> (Stored, Report), i: nat, stores: seq<Stored>)
    requires i <= |ts| == |stores|
    ensures var (last, reports) := TurnsFrom(ts, turn, i, stores);
            && |last| == |stores| && i + |reports| <= |ts|
            && (forall k | i <= k < i + |reports| :: (last[k], reports[k - i]) == turn(ts[k], stores[k]))
            && (forall k | 0 <= k < |ts| && !(i <= k < i + |reports|) :: last[k] == stores[k])
            && (forall k | i <= k < i + |reports| - 1 :: !ts[k].stopsAfter)
            && (i + |reports| < |ts| ==> reports != [] && ts[i + |reports| - 1].stopsAfter)
    decreases |ts| - i
  {
    if i < |ts| && !ts[i].stopsAfter {
      TurnsAreIndependent(ts, turn, i + 1, stores[i := turn(ts[i], stores[i]).0]);
    }
  }

  /** Every account's turn under one cycle's lists. */
  function UnderLists(setup: Setup, lists: Cache): (Turn, Stored) -> (Stored, Report) {
    (t: Turn, s: Stored) => TurnOf(setup, t, lists, s)
  }

  // ---------------------------------------------------------- a turn is a step of a history

  /** An IMAP account's turn changes its disk exactly as a run in that account's history does,
      whatever the mailboxes held. */
  lemma ImapTurnIsStep(setup: Setup, w: ImapHistory.World, e: ImapHistory.Event, t: Turn)
    requires e.Run? && e.cfg == setup.For(t.account) && t.script == e.script && t.remote == ImapRemote(e.o, e.session)
    requires !t.loadFails && !t.providerFails && t.saveFails == e.saveFails
    requires !Skips(Cycle(e.cfg, e.lists, e.script))
    ensures var w' := ImapHistory.Next(w, e);
            TurnOf(setup, t, e.lists, Stored(w.st, w.files, w.parked)).0 == Stored(w'.st, w'.files, w'.parked)
  {
  }

  lemma GmailTurnIsStep(setup: Setup, w: GmailHistory.World, e: GmailHistory.Event, t: Turn)
    requires e.Run? && e.cfg == setup.For(t.account) && t.script == e.script && t.remote == GmailRemote(e.o, e.session)
    requires !t.loadFails && !t.providerFails && t.saveFails == e.saveFails
    requires !Skips(Cycle(e.cfg, e.lists, e.script))
    ensures var w' := GmailHistory.Next(w, e);
            TurnOf(setup, t, e.lists, Stored(w.st, w.files, w.parked)).0 == Stored(w'.st, w'.files, w'.parked)
  {
    GmailHistory.NextOnDisk(w, e);
  }

  // ---------------------------------------------------------------------- implementation

  datatype Outcome = Locked | Refused | Ran(reports: seq<Report>)

  /** CycleWithStop's effect on the accounts' disks. */
  function CycleOf(setup: Setup, locked: bool, lists: Cache, ts: seq<Turn>, stores: seq<Stored>): (seq<Stored>, Outcome)
    requires |ts| == |stores|
  {
    if locked then (stores, Locked)
    else if lists.degraded != map[] && setup.onDegraded.Fail? then (stores, Refused)
    else
      var (last, reports) := TurnsFrom(ts, UnderLists(setup, lists), 0, stores);
      (last, Ran(reports))
  }

  class Runner {
    const engine: FilterEngine.Engine
    const setup: Setup
    var stores: seq<Stored>

    /** The engine's own rules are the ones every account's messages are judged by. */
    constructor (engine: FilterEngine.Engine, setup: Setup, stores: seq<Stored>)
      ensures this.engine == engine && this.setup == setup.(rules := engine.rules) && this.stores == stores
    {
      this.engine, this.setup, this.stores := engine, setup.(rules := engine.rules), stores;
    }

    /** Fetches through whichever provider the account has. */
    method FetchAccount(remote: Remote, st: State, cb: FetchCallback) returns (out: SyncState, ending: Ending)
      modifies cb
      ensures fresh(out)
      ensures Fetched(out.Value(), cb.Value(), ending) == Fetch(remote, st, cb.cyc, old(cb.Value()))
    {
      match remote {
        case ImapRemote(o, session) =>
          var provider := new Imap.Provider(o);
          var end;
          out, end := provider.Run(session, st, cb);
          ending := Imap.Grade(end);
          cb.summary := cb.summary.(vanished := 0);
        case GmailRemote(o, session) =>
          var provider := new Gmail.Provider(o);
          var end;
          out, end := provider.Run(session, st, cb);
          ending := Gmail.Grade(end);
          cb.summary := cb.summary.(vanished := provider.vanished);
      }
    }

    /** Folds the accounted ids into the seen set. */
    method MarkAccounted(out: SyncState, ids: seq<string>)
      modifies out
      ensures out.Value() == old(out.Value()).(seen := MarkedAll(old(out.seen), ids))
    {
      var k := 0;
      while k < |ids|
        invariant 0 <= k <= |ids|
        invariant out.Value() == old(out.Value()).(seen := out.seen)
        invariant MarkedAll(old(out.seen), ids) == MarkedAll(out.seen, ids[k..])
      {
        out.MarkSeen(ids[k]);
        k := k + 1;
      }
    }

    method CycleAccount(t: Turn, lists: Cache, i: nat) returns (report: Report)
      requires i < |stores|
      modifies `stores
      ensures stores == old(stores)[i := TurnOf(setup, t, lists, old(stores)[i]).0]
      ensures report == TurnOf(setup, t, lists, old(stores)[i]).1
    {
      var s, cyc := stores[i], Cycle(setup.For(t.account), lists, t.script);
      if t.loadFails || t.providerFails {
        assert stores[i := s] == stores;
        return Report(lists.degraded != map[], false, false, true, ZERO, [], [], []);
      }
      var cb := new FetchCallback(cyc, s.files, s.parked);
      var out, ending := FetchAccount(t.remote, s.st, cb);
      var clean, saves := ending.Completed? || ending.Stopped?, Saves(cyc, ending);
      var st := s.st;
      if clean {
        MarkAccounted(out, cb.accounted);
        if saves && !t.saveFails {
          st := out.Value();
        }
      }
      stores := stores[i := Stored(st, cb.files, cb.parked)];
      report := Report(lists.degraded != map[], clean && !setup.dryRun && Holds(cyc), ending.Stopped?,
                       !clean || (saves && t.saveFails), cb.summary, cb.stored, cb.skipped, cb.quarantined);
    }

    /** The lists are read, and judged, before the first account fetches anything. */
    method CycleWithStop(locked: bool, ts: seq<Turn>, disk: Disk) returns (outcome: Outcome)
      requires |ts| == |stores|
      modifies `stores, engine.files
      ensures (stores, outcome) == CycleOf(setup, locked, FilterEngine.Snapshot(engine.refs, disk), ts, old(stores))
      ensures locked ==> engine.files.Value() == old(engine.files.Value())
      ensures !locked ==> engine.files.Value() == FilterEngine.Snapshot(engine.refs, disk)
    {
      if locked {
        return Locked;
      }
      engine.BeginCycle();
      engine.Preload(disk);
      var lists := engine.files.Value();
      if lists.degraded != map[] && setup.onDegraded.Fail? {
        return Refused;
      }
      ghost var turn := UnderLists(setup, lists);
      var reports: seq<Report> := [];
      var i := 0;
      while i < |ts|
        invariant 0 <= i <= |ts| == |stores| && engine.files.Value() == lists
        invariant Joins(TurnsFrom(ts, turn, 0, old(stores)), reports, TurnsFrom(ts, turn, i, stores))
      {
        ghost var rest := TurnsFrom(ts, turn, i, stores);
        var report := CycleAccount(ts[i], lists, i);
        reports := reports + [report];
        if ts[i].stopsAfter {
          return Ran(reports);
        }
        i := i + 1;
      }
      assert reports + [] == reports;
      outcome := Ran(reports);
    }
  }

  /** A whole cycle is the reports made so far and the turns still to come. */
  ghost predicate Joins(whole: (seq<Stored>, seq<Report>), reports: seq<Report>, rest: (seq<Stored>, seq<Report>)) {
    whole.0 == rest.0 && whole.1 == reports + rest.1
  }
}
