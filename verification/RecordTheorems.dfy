/** What an account's record of settled messages keeps from one cycle to the next, whichever
    provider feeds it. */
module RecordTheorems {
  import opened Mail
  import opened FilterEngine
  import opened Pipeline
  import opened PipelineTheorems

  // ------------------------------------------------------------------- within a cycle

  /** No id in play has lost its place in quarantine, but for those torn. */
  ghost predicate ParkedStays(cfg: Config, ids: set<string>, before: map<string, string>, later: map<string, string>, torn: set<string>) {
    forall id | id in ids && id !in torn && cfg.parkingPath(id) in before && before[cfg.parkingPath(id)] == id ::
      cfg.parkingPath(id) in later && later[cfg.parkingPath(id)] == id
  }

  /** One cycle's record: sound, judged in that cycle, and marking only what it accepted. */
  ghost predicate InCycle(cyc: Cycle, ids: set<string>, p: Progress) {
    && Sound(cyc.cfg, ids, p)
    && (forall id | id in p.fates :: p.fates[id].cyc == cyc)
    && (forall id | id in p.accounted :: id in p.fates)
  }

  ghost predicate Advances(cyc: Cycle, ids: set<string>, p: Progress, q: Progress) {
    InCycle(cyc, ids, q) && Extends(p.files, q.files) && ParkedStays(cyc.cfg, ids, p.parked, q.parked, q.torn) && p.torn <= q.torn
  }

  lemma DeliverKeepsParked(cyc: Cycle, call: nat, p: Progress, msg: Message, rule: Rule)
    ensures DeliverFrom(cyc, call, msg, rule, Sinks(rule), 0, Delivery(p, false, false)).p.parked == p.parked
  {
    DeliverTouchesOnlyFiles(cyc, call, msg, rule, Sinks(rule), 0, Delivery(p, false, false));
  }

  lemma HandleKeepsParked(cyc: Cycle, p: Progress, raw: RawMessage, ids: set<string>)
    requires FaithfulNames(cyc.cfg, ids) && raw.id in ids
    ensures ParkedStays(cyc.cfg, ids, p.parked, Handle(cyc, p, raw).0.parked, Handle(cyc, p, raw).0.torn)
  {
    var parsed := Parsed(cyc.cfg, raw);
    if parsed.Some? {
      var claim := Claim(cyc, p.calls, parsed.value);
      if claim.Some? {
        DeliverKeepsParked(cyc, p.calls, CountMatch(Take(p)), parsed.value, claim.value);
      }
    }
  }

  lemma HandleAdvances(cyc: Cycle, p: Progress, raw: RawMessage, ids: set<string>)
    requires !cyc.cfg.dryRun && FaithfulNames(cyc.cfg, ids) && raw.id in ids && InCycle(cyc, ids, p)
    ensures Advances(cyc, ids, p, Handle(cyc, p, raw).0)
  {
    HandleKeepsFates(cyc, p, raw, ids);
    HandleKeepsParked(cyc, p, raw, ids);
    HandleRecords(cyc, p, raw);
  }

  // ------------------------------------------------------------------- across cycles

  /** Two configurations under which an account's files have the same names, whatever else differs. */
  ghost predicate SameNames(a: Config, b: Config) { a.account == b.account && a.path == b.path && a.parkingPath == b.parkingPath }

  /** An account whose files have names faithful to its messages. */
  ghost predicate Named(names: Config, account: string, ids: set<string>) { names.account == account && FaithfulNames(names, ids) }

  /** A live cycle of such an account, under any rules and policies. */
  ghost predicate LiveCycle(cyc: Cycle, names: Config) { SameNames(cyc.cfg, names) && !cyc.cfg.dryRun }

  /** Judged while every list was read in full, where the policy of its cycle promised that. */
  ghost predicate WellJudged(fates: map<string, Fate>) {
    forall id | id in fates && !fates[id].cyc.cfg.onDegraded.Proceed? :: fates[id].cyc.lists.degraded == map[]
  }

  /** What the account's record promises of its files. */
  ghost predicate Kept(names: Config, ids: set<string>, fates: map<string, Fate>, files: map<string, File>,
                       parked: map<string, string>, torn: set<string>)
  {
    fates.Keys <= ids && FatesKept(names, fates, files, parked, torn) && WellJudged(fates)
  }

  lemma NamesDecide(a: Config, b: Config, ids: set<string>, files: map<string, File>)
    requires SameNames(a, b)
    ensures FaithfulNames(a, ids) ==> FaithfulNames(b, ids)
    ensures OwnFiles(a, ids, files) ==> OwnFiles(b, ids, files)
  {
    if FaithfulNames(a, ids) {
      forall m: Message, n: Message, d, e, f, g |
        m.account == n.account == b.account && m.id in ids && n.id in ids && b.path(m, d, f) == b.path(n, e, g)
        ensures m.id == n.id && f == g
      {
        assert a.path(m, d, f) == a.path(n, e, g);
      }
    }
    if OwnFiles(a, ids, files) {
      forall path | path in files ensures OwnFile(b, ids, path, files[path]) {
        assert OwnFile(a, ids, path, files[path]);
        var m: Message, d :| m.account == a.account && m.id == files[path].id && path == a.path(m, d, files[path].format);
        assert path == b.path(m, d, files[path].format);
      }
    }
  }

  lemma NamesDecideFate(a: Config, b: Config, id: string, fate: Fate, files: map<string, File>, parked: map<string, string>)
    requires SameNames(a, b) && FateKept(a, id, fate, files, parked)
    ensures FateKept(b, id, fate, files, parked)
  {
    if fate.outcome.Rendered? {
      forall f | f in fate.outcome.rule.formats ensures OnDisk(b, fate.outcome.msg, fate.outcome.rule, f, files) {
        assert OnDisk(a, fate.outcome.msg, fate.outcome.rule, f, files);
      }
    }
  }

  lemma NamesDecideFates(a: Config, b: Config, fates: map<string, Fate>, files: map<string, File>, parked: map<string, string>, torn: set<string>)
    requires SameNames(a, b) && FatesKept(a, fates, files, parked, torn)
    ensures FatesKept(b, fates, files, parked, torn)
  {
    forall id | id in fates ensures FateKept(b, id, fates[id], files, parked) || IsTorn(id, fates[id], torn) {
      if FateKept(a, id, fates[id], files, parked) {
        NamesDecideFate(a, b, id, fates[id], files, parked);
      }
    }
  }

  /** Settled fates stay kept while files only grow and parked messages keep their place. */
  lemma OldFatesKept(cfg: Config, ids: set<string>, fates: map<string, Fate>, files: map<string, File>, parked: map<string, string>,
                     torn: set<string>, p: Progress)
    requires fates.Keys <= ids && FatesKept(cfg, fates, files, parked, torn)
    requires Extends(files, p.files) && ParkedStays(cfg, ids, parked, p.parked, p.torn)
    ensures FatesKept(cfg, fates, p.files, p.parked, torn + p.torn)
  {
    forall id | id in fates ensures FateKept(cfg, id, fates[id], p.files, p.parked) || IsTorn(id, fates[id], torn + p.torn) {
      assert FateKept(cfg, id, fates[id], files, parked) || IsTorn(id, fates[id], torn);
    }
  }

  /** A cycle that is not saved keeps the record it ran beside, but for the copies it tore. */
  lemma UnsavedKeepsRecord(names: Config, cyc: Cycle, ids: set<string>, fates: map<string, Fate>, files: map<string, File>,
                           parked: map<string, string>, torn: set<string>, p: Progress)
    requires SameNames(cyc.cfg, names)
    requires Kept(names, ids, fates, files, parked, torn) && Advances(cyc, ids, Begin(files, parked), p)
    ensures Kept(names, ids, fates, p.files, p.parked, torn + p.torn)
  {
    assert ParkedStays(names, ids, parked, p.parked, p.torn);
    OldFatesKept(names, ids, fates, files, parked, torn, p);
  }

  /** A saved one adds to it: what was settled stays delivered or parked, and what it settles itself
      was judged as the degraded-list policy promises. */
  lemma SavedKeepsRecord(names: Config, cyc: Cycle, ids: set<string>, fates: map<string, Fate>, files: map<string, File>,
                         parked: map<string, string>, torn: set<string>, p: Progress)
    requires SameNames(cyc.cfg, names)
    requires Kept(names, ids, fates, files, parked, torn) && Advances(cyc, ids, Begin(files, parked), p)
    requires p.torn == {} && !Skips(cyc) && !Holds(cyc)
    ensures Kept(names, ids, fates + p.fates, p.files, p.parked, torn - p.fates.Keys)
  {
    UnsavedKeepsRecord(names, cyc, ids, fates, files, parked, torn, p);
    NamesDecideFates(cyc.cfg, names, p.fates, p.files, p.parked, {});
    var all := fates + p.fates;
    forall id | id in all ensures FateKept(names, id, all[id], p.files, p.parked) || IsTorn(id, all[id], torn - p.fates.Keys) {
      assert all[id] == if id in p.fates then p.fates[id] else fates[id];
      assert id in p.fates ==> FateKept(names, id, p.fates[id], p.files, p.parked);
    }
  }
}
