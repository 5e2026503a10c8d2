/** What the callback keeps, message by message and over a whole fetch. */
module PipelineTheorems {
  import opened Text
  import opened Seqs
  import opened Mail
  import opened FilterEngine
  import opened Pipeline

  // ---------------------------------------------------------- no fate without a file

  /** The names are faithful to the messages in play: two of the account's messages share a
      rendering's path only if they are one message in one format, and no two share a parking path. */
  ghost predicate FaithfulNames(cfg: Config, ids: set<string>) {
    && (forall m: Message, n: Message, d, e, f, g |
          m.account == n.account == cfg.account && m.id in ids && n.id in ids && cfg.path(m, d, f) == cfg.path(n, e, g) ::
          m.id == n.id && f == g)
    && (forall a, b | a in ids && b in ids && cfg.parkingPath(a) == cfg.parkingPath(b) :: a == b)
  }

  /** Every file under the destinations is a rendering the sinks wrote, under its own name. */
  ghost predicate OwnFiles(cfg: Config, ids: set<string>, files: map<string, File>) {
    forall path | path in files :: OwnFile(cfg, ids, path, files[path])
  }

  ghost predicate OwnFile(cfg: Config, ids: set<string>, path: string, file: File) {
    file.id in ids && exists m: Message, d :: m.account == cfg.account && m.id == file.id && path == cfg.path(m, d, file.format)
  }

  ghost predicate OnDisk(cfg: Config, msg: Message, rule: Rule, format: Format, files: map<string, File>) {
    var path := RenderingPath(cfg, msg, rule, format);
    path in files && files[path] == File(msg.id, format)
  }

  /** A fate is kept: an unmatched message really matched no rule, a delivered one is on disk
      in every rendering its rule asks for, a failed one is in quarantine. */
  ghost predicate FateKept(cfg: Config, id: string, fate: Fate, files: map<string, File>, parked: map<string, string>) {
    match fate.outcome
    case Unmatched(msg, now) =>
      msg.id == id && msg.account == cfg.account && fate.cyc.cfg.evaluate(msg, now, fate.cyc.lists) == None
    case Rendered(msg, now, rule) =>
      && msg.id == id && msg.account == cfg.account
      && fate.cyc.cfg.evaluate(msg, now, fate.cyc.lists) == Some(rule)
      && forall f | f in rule.formats :: OnDisk(cfg, msg, rule, f, files)
    case Parked(path) =>
      path == cfg.parkingPath(id) && path in parked && parked[path] == id
  }

  /** Every fate is kept, but for quarantine copies that were torn. */
  ghost predicate FatesKept(cfg: Config, fates: map<string, Fate>, files: map<string, File>, parked: map<string, string>,
                            torn: set<string>)
  {
    forall id | id in fates :: FateKept(cfg, id, fates[id], files, parked) || IsTorn(id, fates[id], torn)
  }

  predicate IsTorn(id: string, fate: Fate, torn: set<string>) { fate.outcome.Parked? && id in torn }

  ghost predicate Extends<T>(small: map<string, T>, big: map<string, T>) {
    forall k | k in small :: k in big && big[k] == small[k]
  }

  ghost predicate SameElsewhere(p: Progress, q: Progress) {
    p.calls == q.calls && p.quarantined == q.quarantined && p.accounted == q.accounted
    && p.parked == q.parked && p.fates == q.fates && p.torn == q.torn
  }

  /** Storing one rendering keeps every file, and a name already taken is this very rendering. */
  lemma StoreWrites(cyc: Cycle, call: nat, msg: Message, rule: Rule, format: Format, k: nat, d: Delivery, ids: set<string>)
    requires !cyc.cfg.dryRun && FaithfulNames(cyc.cfg, ids) && OwnFiles(cyc.cfg, ids, d.p.files)
    requires msg.account == cyc.cfg.account && msg.id in ids
    ensures var r := StoreOne(cyc, call, msg, rule, format, k, d);
            && OwnFiles(cyc.cfg, ids, r.p.files) && Extends(d.p.files, r.p.files)
            && (d.failed ==> r.failed)
            && (!r.failed ==> OnDisk(cyc.cfg, msg, rule, format, r.p.files))
  {
    var path := RenderingPath(cyc.cfg, msg, rule, format);
    if path in d.p.files {
      assert OwnFile(cyc.cfg, ids, path, d.p.files[path]);
    } else {
      assert OwnFile(cyc.cfg, ids, path, File(msg.id, format));
    }
  }

  /** deliver: no failure means every rendering from the k-th on is on disk, and no file
      already there has changed. */
  lemma {:induction false} DeliverWrites(
    cyc: Cycle, call: nat, msg: Message, rule: Rule, sinks: seq<Format>, k: nat, d: Delivery, ids: set<string>)
    requires k <= |sinks| && !cyc.cfg.dryRun
    requires FaithfulNames(cyc.cfg, ids) && OwnFiles(cyc.cfg, ids, d.p.files)
    requires msg.account == cyc.cfg.account && msg.id in ids
    ensures var r := DeliverFrom(cyc, call, msg, rule, sinks, k, d);
            && OwnFiles(cyc.cfg, ids, r.p.files)
            && Extends(d.p.files, r.p.files)
            && (d.failed ==> r.failed)
            && (!r.failed ==> forall i | k <= i < |sinks| :: OnDisk(cyc.cfg, msg, rule, sinks[i], r.p.files))
    decreases |sinks| - k
  {
    if k < |sinks| {
      StoreWrites(cyc, call, msg, rule, sinks[k], k, d, ids);
      DeliverWrites(cyc, call, msg, rule, sinks, k + 1, StoreOne(cyc, call, msg, rule, sinks[k], k, d), ids);
    }
  }

  lemma {:induction false} DeliverTouchesOnlyFiles(
    cyc: Cycle, call: nat, msg: Message, rule: Rule, sinks: seq<Format>, k: nat, d: Delivery)
    requires k <= |sinks|
    ensures SameElsewhere(d.p, DeliverFrom(cyc, call, msg, rule, sinks, k, d).p)
    decreases |sinks| - k
  {
    if k < |sinks| {
      DeliverTouchesOnlyFiles(cyc, call, msg, rule, sinks, k + 1, StoreOne(cyc, call, msg, rule, sinks[k], k, d));
    }
  }

  /** What one step did to the record of fates and to the ids to be marked seen: accepting a
      message records its fate in this cycle, anything else records nothing. */
  ghost predicate Records(cyc: Cycle, p: Progress, raw: RawMessage, q: Progress, v: Verdict) {
    && (v == Accept ==> raw.id in q.fates && q.fates == p.fates[raw.id := q.fates[raw.id]]
                        && q.fates[raw.id].cyc == cyc)
    && (v != Accept ==> q.fates == p.fates)
    && (if v == Refuse then q.torn == p.torn || q.torn == p.torn + {raw.id} else q.torn == p.torn)
    && (q.accounted == p.accounted || (v == Accept && q.accounted == p.accounted + [raw.id]))
  }

  lemma ClaimedRecords(cyc: Cycle, call: nat, p: Progress, raw: RawMessage, msg: Message, rule: Rule)
    requires msg.id == raw.id
    ensures var (q, v) := Claimed(cyc, call, p, raw, msg, rule); Records(cyc, p, raw, q, v) && v != Stop
  {
    DeliverTouchesOnlyFiles(cyc, call, msg, rule, Sinks(rule), 0, Delivery(CountMatch(p), false, false));
  }

  lemma HandleRecords(cyc: Cycle, p: Progress, raw: RawMessage)
    ensures var (q, v) := Handle(cyc, p, raw);
            Records(cyc, p, raw, q, v) && (v == Stop <==> StopSeen(cyc, p)) && (v == Stop ==> q == p)
  {
    var parsed := Parsed(cyc.cfg, raw);
    if parsed.Some? && Claim(cyc, p.calls, parsed.value).Some? {
      ClaimedRecords(cyc, p.calls, Take(p), raw, parsed.value, Claim(cyc, p.calls, parsed.value).value);
    }
  }

  /** Parking one message disturbs no other fate, because no other id in play shares its path. */
  lemma ParkingKeepsFates(cfg: Config, ids: set<string>, raw: RawMessage, fates: map<string, Fate>,
                          files: map<string, File>, parked: map<string, string>, torn: set<string>)
    requires FaithfulNames(cfg, ids) && raw.id in ids && fates.Keys <= ids
    requires FatesKept(cfg, fates, files, parked, torn)
    ensures FatesKept(cfg, fates, files, parked[cfg.parkingPath(raw.id) := raw.id], torn)
    ensures FatesKept(cfg, fates, files, parked - {cfg.parkingPath(raw.id)}, torn + {raw.id})
  {
    var next, less := parked[cfg.parkingPath(raw.id) := raw.id], parked - {cfg.parkingPath(raw.id)};
    forall id | id in fates
      ensures FateKept(cfg, id, fates[id], files, next) || IsTorn(id, fates[id], torn)
      ensures FateKept(cfg, id, fates[id], files, less) || IsTorn(id, fates[id], torn + {raw.id})
    {
      assert FateKept(cfg, id, fates[id], files, parked) || IsTorn(id, fates[id], torn);
    }
  }

  /** The record is sound: it speaks of ids in play, the files are the sinks' own, and every
      fate in it is kept. */
  ghost predicate Sound(cfg: Config, ids: set<string>, p: Progress) {
    p.fates.Keys <= ids && OwnFiles(cfg, ids, p.files) && FatesKept(cfg, p.fates, p.files, p.parked, p.torn)
  }

  lemma FailedKeepsFates(cyc: Cycle, call: nat, p: Progress, raw: RawMessage, rule: string, reason: Reason, ids: set<string>)
    requires !cyc.cfg.dryRun && FaithfulNames(cyc.cfg, ids) && raw.id in ids && Sound(cyc.cfg, ids, p)
    ensures var q := Failed(cyc, call, p, raw, rule, reason).0; Sound(cyc.cfg, ids, q) && q.files == p.files
  {
    ParkingKeepsFates(cyc.cfg, ids, raw, p.fates, p.files, p.parked, p.torn);
  }

  lemma DeliverKeepsFates(cyc: Cycle, call: nat, p: Progress, msg: Message, rule: Rule, ids: set<string>)
    requires !cyc.cfg.dryRun && FaithfulNames(cyc.cfg, ids) && Sound(cyc.cfg, ids, p)
    requires msg.account == cyc.cfg.account && msg.id in ids
    ensures var d := DeliverFrom(cyc, call, msg, rule, Sinks(rule), 0, Delivery(p, false, false));
            && Sound(cyc.cfg, ids, d.p) && Extends(p.files, d.p.files)
            && (!d.failed ==> forall f | f in rule.formats :: OnDisk(cyc.cfg, msg, rule, f, d.p.files))
  {
    var before := Delivery(p, false, false);
    DeliverWrites(cyc, call, msg, rule, Sinks(rule), 0, before, ids);
    DeliverTouchesOnlyFiles(cyc, call, msg, rule, Sinks(rule), 0, before);
    AddAllCollects([], rule.formats);
    assert forall f | f in rule.formats :: f in Sinks(rule);
  }

  lemma ClaimedKeepsFates(cyc: Cycle, call: nat, p: Progress, raw: RawMessage, msg: Message, rule: Rule, ids: set<string>)
    requires !cyc.cfg.dryRun && FaithfulNames(cyc.cfg, ids) && Sound(cyc.cfg, ids, p)
    requires msg.account == cyc.cfg.account && msg.id == raw.id && raw.id in ids
    requires Claim(cyc, call, msg) == Some(rule)
    ensures var q := Claimed(cyc, call, p, raw, msg, rule).0; Sound(cyc.cfg, ids, q) && Extends(p.files, q.files)
  {
    DeliverKeepsFates(cyc, call, CountMatch(p), msg, rule, ids);
    var d := DeliverFrom(cyc, call, msg, rule, Sinks(rule), 0, Delivery(CountMatch(p), false, false));
    if d.failed {
      FailedKeepsFates(cyc, call, d.p, raw, rule.name, SinkReason, ids);
    }
  }

  /** Every fate is kept through every message: whatever stops, fails or is refused, what was
      accepted stays delivered, quarantined, or rightly unmatched, and no file is lost or changed. */
  lemma HandleKeepsFates(cyc: Cycle, p: Progress, raw: RawMessage, ids: set<string>)
    requires !cyc.cfg.dryRun && FaithfulNames(cyc.cfg, ids) && raw.id in ids && Sound(cyc.cfg, ids, p)
    ensures var q := Handle(cyc, p, raw).0; Sound(cyc.cfg, ids, q) && Extends(p.files, q.files)
  {
    var parsed := Parsed(cyc.cfg, raw);
    if parsed.None? {
      FailedKeepsFates(cyc, p.calls, CountParseError(Take(p)), raw, "", ParseReason, ids);
    } else {
      var claim := Claim(cyc, p.calls, parsed.value);
      if claim.Some? {
        ClaimedKeepsFates(cyc, p.calls, Take(p), raw, parsed.value, claim.value, ids);
      }
    }
  }

  // ------------------------------------------------------------ conservation of counts

  /** What a run of offered messages amounts to, from routing alone. */
  datatype Tally = Tally(matched: nat, unmatched: nat, parseErrors: nat, renderings: nat)

  function Plus(a: Tally, b: Tally): Tally {
    Tally(a.matched + b.matched, a.unmatched + b.unmatched, a.parseErrors + b.parseErrors, a.renderings + b.renderings)
  }

  /** One message's. */
  function TallyOf(cyc: Cycle, call: nat, raw: RawMessage): Tally {
    var parsed := Parsed(cyc.cfg, raw);
    if parsed.None? then Tally(0, 0, 1, 0)
    else
      var claim := Claim(cyc, call, parsed.value);
      if claim.None? then Tally(0, 1, 0, 0) else Tally(1, 0, 0, |Sinks(claim.value)|)
  }

  function Tallied(cyc: Cycle, call: nat, raws: seq<RawMessage>): Tally
    decreases |raws|
  {
    if raws == [] then Tally(0, 0, 0, 0) else Plus(TallyOf(cyc, call, raws[0]), Tallied(cyc, call + 1, raws[1..]))
  }

  /** A whole fetch: messages are handed over until one is not accepted. `taken` is how many
      the callback looked at, the refused one included. */
  function HandleAll(cyc: Cycle, p: Progress, raws: seq<RawMessage>): (r: (Progress, nat, Verdict))
    ensures r.1 <= |raws|
    decreases |raws|
  {
    if raws == [] then (p, 0, Accept)
    else
      var (q, v) := Handle(cyc, p, raws[0]);
      if v == Stop then (q, 0, v)
      else if v == Refuse then (q, 1, v)
      else
        var (last, taken, end) := HandleAll(cyc, q, raws[1..]);
        (last, taken + 1, end)
  }

  /** Every counter that names a rendering, or a parked message, has an array to match it. */
  ghost predicate ArraysMatch(p: Progress) {
    p.summary.stored == |p.stored| && p.summary.skipped == |p.skipped| && p.summary.quarantined == |p.quarantined|
  }

  /** The counters moved by n renderings and by nothing else a matched message can change. */
  ghost predicate Fanned(s: Summary, t: Summary, n: nat) {
    && t.stored + t.skipped + t.sinkErrors == s.stored + s.skipped + s.sinkErrors + n
    && t.fetched == s.fetched && t.matched == s.matched && t.parseErrors == s.parseErrors && t.quarantined == s.quarantined
  }

  lemma StoreCounts(cyc: Cycle, call: nat, msg: Message, rule: Rule, format: Format, k: nat, d: Delivery)
    requires ArraysMatch(d.p)
    ensures var p := StoreOne(cyc, call, msg, rule, format, k, d).p; ArraysMatch(p) && Fanned(d.p.summary, p.summary, 1)
  {
  }

  lemma {:induction false} DeliverCounts(cyc: Cycle, call: nat, msg: Message, rule: Rule, sinks: seq<Format>, k: nat, d: Delivery)
    requires k <= |sinks| && ArraysMatch(d.p)
    ensures var p := DeliverFrom(cyc, call, msg, rule, sinks, k, d).p;
            ArraysMatch(p) && Fanned(d.p.summary, p.summary, |sinks| - k)
    decreases |sinks| - k
  {
    if k < |sinks| {
      StoreCounts(cyc, call, msg, rule, sinks[k], k, d);
      DeliverCounts(cyc, call, msg, rule, sinks, k + 1, StoreOne(cyc, call, msg, rule, sinks[k], k, d));
    }
  }

  /** The counters moved from s to t by exactly what `taken` messages amount to. */
  ghost predicate Moved(s: Summary, t: Summary, all: Tally, taken: nat) {
    && all.matched + all.unmatched + all.parseErrors == taken
    && t.fetched == s.fetched + taken
    && t.matched == s.matched + all.matched
    && t.parseErrors == s.parseErrors + all.parseErrors
    && t.stored + t.skipped + t.sinkErrors == s.stored + s.skipped + s.sinkErrors + all.renderings
  }

  lemma FailedCounts(cyc: Cycle, call: nat, p: Progress, raw: RawMessage, rule: string, reason: Reason)
    requires ArraysMatch(p)
    ensures var q := Failed(cyc, call, p, raw, rule, reason).0;
            ArraysMatch(q) && q.calls == p.calls && q.summary == p.summary.(quarantined := q.summary.quarantined)
  {
  }

  lemma ClaimedCounts(cyc: Cycle, call: nat, p: Progress, raw: RawMessage, msg: Message, rule: Rule)
    requires ArraysMatch(p)
    ensures var q := Claimed(cyc, call, p, raw, msg, rule).0;
            && ArraysMatch(q) && q.calls == p.calls
            && q.summary.fetched == p.summary.fetched && q.summary.parseErrors == p.summary.parseErrors
            && q.summary.matched == p.summary.matched + 1
            && q.summary.stored + q.summary.skipped + q.summary.sinkErrors
               == p.summary.stored + p.summary.skipped + p.summary.sinkErrors + |Sinks(rule)|
  {
    var before := Delivery(CountMatch(p), false, false);
    DeliverCounts(cyc, call, msg, rule, Sinks(rule), 0, before);
    DeliverTouchesOnlyFiles(cyc, call, msg, rule, Sinks(rule), 0, before);
    FailedCounts(cyc, call, DeliverFrom(cyc, call, msg, rule, Sinks(rule), 0, before).p, raw, rule.name, SinkReason);
  }

  /** One message taken moves the counters by exactly its own tally. */
  lemma HandleCounts(cyc: Cycle, p: Progress, raw: RawMessage)
    requires ArraysMatch(p)
    ensures var (q, v) := Handle(cyc, p, raw);
            && ArraysMatch(q)
            && (v != Stop ==> q.calls == p.calls + 1 && Moved(p.summary, q.summary, TallyOf(cyc, p.calls, raw), 1))
  {
    var parsed := Parsed(cyc.cfg, raw);
    if parsed.None? {
      FailedCounts(cyc, p.calls, CountParseError(Take(p)), raw, "", ParseReason);
    } else {
      var claim := Claim(cyc, p.calls, parsed.value);
      if claim.Some? {
        ClaimedCounts(cyc, p.calls, Take(p), raw, parsed.value, claim.value);
      }
    }
  }

  /** Manifest conservation over a whole fetch, however it ends: every message taken is matched,
      unmatched or a parse error, and every rendering its rule asks for is stored, skipped or failed. */
  lemma {:induction false} CountsAreConserved(cyc: Cycle, p: Progress, raws: seq<RawMessage>)
    requires ArraysMatch(p)
    ensures var (q, taken, _) := HandleAll(cyc, p, raws);
            ArraysMatch(q) && Moved(p.summary, q.summary, Tallied(cyc, p.calls, raws[..taken]), taken)
    decreases |raws|
  {
    if raws != [] {
      HandleCounts(cyc, p, raws[0]);
      var (q, v) := Handle(cyc, p, raws[0]);
      var taken := HandleAll(cyc, p, raws).1;
      if v == Refuse {
        assert raws[..1][1..] == [];
      } else if v == Accept {
        CountsAreConserved(cyc, q, raws[1..]);
        assert raws[..taken][1..] == raws[1..][..taken - 1];
      }
    }
  }

  // ------------------------------------------------------------------------- re-running

  ghost predicate Faultless(cyc: Cycle) {
    && cyc.script.stopAt == None && (forall call, k :: !cyc.script.sinkFails(call, k))
    && forall call :: cyc.script.park(call) == Parks
  }

  /** Every rendering some rule asks of the message is on disk already; one that does not parse is in
      quarantine already. */
  ghost predicate IsOnDisk(cyc: Cycle, call: nat, raw: RawMessage, files: map<string, File>, parked: map<string, string>) {
    var parsed := Parsed(cyc.cfg, raw);
    if parsed.None? then
      cyc.cfg.onFailure.QuarantineIt? && cyc.cfg.parkingPath(raw.id) in parked && parked[cyc.cfg.parkingPath(raw.id)] == raw.id
    else
      var claim := Claim(cyc, call, parsed.value);
      claim.Some? ==>
        claim.value.dest != "" && forall f | f in claim.value.formats :: OnDisk(cyc.cfg, parsed.value, claim.value, f, files)
  }

  ghost predicate AllOnDisk(cyc: Cycle, call: nat, raws: seq<RawMessage>, files: map<string, File>, parked: map<string, string>)
    decreases |raws|
  {
    raws != [] ==> IsOnDisk(cyc, call, raws[0], files, parked) && AllOnDisk(cyc, call + 1, raws[1..], files, parked)
  }

  lemma {:induction false} DeliverSkips(cyc: Cycle, call: nat, msg: Message, rule: Rule, sinks: seq<Format>, k: nat, d: Delivery)
    requires k <= |sinks| && Faultless(cyc) && rule.dest != ""
    requires forall f | f in sinks :: RenderingPath(cyc.cfg, msg, rule, f) in d.p.files
    ensures var r := DeliverFrom(cyc, call, msg, rule, sinks, k, d);
            && r.p.files == d.p.files && r.p.stored == d.p.stored && r.failed == d.failed
            && r.p.summary == d.p.summary.(skipped := d.p.summary.skipped + |sinks| - k)
    decreases |sinks| - k
  {
    if k < |sinks| {
      DeliverSkips(cyc, call, msg, rule, sinks, k + 1, StoreOne(cyc, call, msg, rule, sinks[k], k, d));
    }
  }

  lemma ClaimedSkips(cyc: Cycle, call: nat, p: Progress, raw: RawMessage, msg: Message, rule: Rule)
    requires Faultless(cyc) && rule.dest != ""
    requires forall f | f in rule.formats :: OnDisk(cyc.cfg, msg, rule, f, p.files)
    ensures var (q, v) := Claimed(cyc, call, p, raw, msg, rule);
            && v == Accept && q.calls == p.calls && q.files == p.files && q.stored == p.stored && q.parked == p.parked
            && q.summary == p.summary.(matched := p.summary.matched + 1, skipped := p.summary.skipped + |Sinks(rule)|)
  {
    AddAllCollects([], rule.formats);
    DeliverSkips(cyc, call, msg, rule, Sinks(rule), 0, Delivery(CountMatch(p), false, false));
    DeliverTouchesOnlyFiles(cyc, call, msg, rule, Sinks(rule), 0, Delivery(CountMatch(p), false, false));
  }

  /** Nothing was written between p and q, and n renderings were skipped. */
  ghost predicate OnlySkipped(p: Progress, q: Progress, n: nat) {
    && q.files == p.files && q.stored == p.stored && q.parked == p.parked
    && q.summary.stored == p.summary.stored && q.summary.sinkErrors == p.summary.sinkErrors
    && q.summary.skipped == p.summary.skipped + n
  }

  lemma HandleSkips(cyc: Cycle, p: Progress, raw: RawMessage)
    requires Faultless(cyc) && IsOnDisk(cyc, p.calls, raw, p.files, p.parked)
    ensures var (q, v) := Handle(cyc, p, raw);
            v == Accept && q.calls == p.calls + 1 && OnlySkipped(p, q, TallyOf(cyc, p.calls, raw).renderings)
  {
    var parsed := Parsed(cyc.cfg, raw);
    if parsed.None? {
      assert p.parked[cyc.cfg.parkingPath(raw.id) := raw.id] == p.parked;
    } else {
      var claim := Claim(cyc, p.calls, parsed.value);
      if claim.Some? {
        ClaimedSkips(cyc, p.calls, Take(p), raw, parsed.value, claim.value);
      }
    }
  }

  /** Re-running a faultless cycle over messages whose renderings are all on disk, or that are in
      quarantine, writes nothing new: every rendering is skipped, none stored, and no file changes. */
  lemma {:induction false} RerunStoresNothing(cyc: Cycle, p: Progress, raws: seq<RawMessage>)
    requires Faultless(cyc) && AllOnDisk(cyc, p.calls, raws, p.files, p.parked)
    ensures var (q, taken, v) := HandleAll(cyc, p, raws);
            v == Accept && taken == |raws| && OnlySkipped(p, q, Tallied(cyc, p.calls, raws).renderings)
    decreases |raws|
  {
    if raws != [] {
      HandleSkips(cyc, p, raws[0]);
      RerunStoresNothing(cyc, Handle(cyc, p, raws[0]).0, raws[1..]);
    }
  }

  lemma {:induction false} DeliverNeverFails(cyc: Cycle, call: nat, msg: Message, rule: Rule, sinks: seq<Format>, k: nat, d: Delivery)
    requires k <= |sinks| && Faultless(cyc) && rule.dest != "" && !d.failed
    ensures !DeliverFrom(cyc, call, msg, rule, sinks, k, d).failed
    decreases |sinks| - k
  {
    if k < |sinks| {
      DeliverNeverFails(cyc, call, msg, rule, sinks, k + 1, StoreOne(cyc, call, msg, rule, sinks[k], k, d));
    }
  }

  lemma ClaimedDelivers(cyc: Cycle, call: nat, p: Progress, raw: RawMessage, msg: Message, rule: Rule, ids: set<string>)
    requires Faultless(cyc) && !cyc.cfg.dryRun && FaithfulNames(cyc.cfg, ids) && Sound(cyc.cfg, ids, p)
    requires msg.account == cyc.cfg.account && msg.id == raw.id && raw.id in ids
    requires Claim(cyc, call, msg) == Some(rule) && rule.dest != ""
    ensures var (q, v) := Claimed(cyc, call, p, raw, msg, rule);
            v == Accept && q.calls == p.calls && forall f | f in rule.formats :: OnDisk(cyc.cfg, msg, rule, f, q.files)
  {
    DeliverNeverFails(cyc, call, msg, rule, Sinks(rule), 0, Delivery(CountMatch(p), false, false));
    DeliverTouchesOnlyFiles(cyc, call, msg, rule, Sinks(rule), 0, Delivery(CountMatch(p), false, false));
    DeliverKeepsFates(cyc, call, CountMatch(p), msg, rule, ids);
  }

  /** This message has its place in quarantine. */
  predicate InPlace(cfg: Config, parked: map<string, string>, id: string) {
    cfg.parkingPath(id) in parked && parked[cfg.parkingPath(id)] == id
  }

  lemma HandleKeepsPlace(cyc: Cycle, p: Progress, raw: RawMessage, ids: set<string>, id: string)
    requires Faultless(cyc) && FaithfulNames(cyc.cfg, ids) && id in ids && raw.id in ids && InPlace(cyc.cfg, p.parked, id)
    ensures InPlace(cyc.cfg, Handle(cyc, p, raw).0.parked, id)
  {
    var parsed := Parsed(cyc.cfg, raw);
    if parsed.Some? && Claim(cyc, p.calls, parsed.value).Some? {
      var rule := Claim(cyc, p.calls, parsed.value).value;
      DeliverTouchesOnlyFiles(cyc, p.calls, parsed.value, rule, Sinks(rule), 0, Delivery(CountMatch(Take(p)), false, false));
    }
  }

  lemma {:induction false} AllKeepPlace(cyc: Cycle, p: Progress, raws: seq<RawMessage>, ids: set<string>, id: string)
    requires Faultless(cyc) && FaithfulNames(cyc.cfg, ids) && id in ids && InPlace(cyc.cfg, p.parked, id)
    requires forall raw | raw in raws :: raw.id in ids
    ensures InPlace(cyc.cfg, HandleAll(cyc, p, raws).0.parked, id)
    decreases |raws|
  {
    if raws != [] {
      HandleKeepsPlace(cyc, p, raws[0], ids, id);
      AllKeepPlace(cyc, Handle(cyc, p, raws[0]).0, raws[1..], ids, id);
    }
  }

  /** One message of a faultless live cycle: accepted, and on disk as its re-run needs it. */
  lemma HandleDelivers(cyc: Cycle, p: Progress, raw: RawMessage, ids: set<string>)
    requires Faultless(cyc) && !cyc.cfg.dryRun && FaithfulNames(cyc.cfg, ids) && Sound(cyc.cfg, ids, p)
    requires raw.id in ids && (Parsed(cyc.cfg, raw).Some? || cyc.cfg.onFailure.QuarantineIt?)
    requires forall m, call :: Claim(cyc, call, m).Some? ==> Claim(cyc, call, m).value.dest != ""
    ensures var (q, v) := Handle(cyc, p, raw);
            && v == Accept && q.calls == p.calls + 1 && Sound(cyc.cfg, ids, q) && Extends(p.files, q.files)
            && IsOnDisk(cyc, p.calls, raw, q.files, q.parked)
  {
    HandleKeepsFates(cyc, p, raw, ids);
    var parsed := Parsed(cyc.cfg, raw);
    if parsed.Some? {
      var claim := Claim(cyc, p.calls, parsed.value);
      if claim.Some? {
        ClaimedDelivers(cyc, p.calls, Take(p), raw, parsed.value, claim.value, ids);
      }
    }
  }

  lemma OnDiskStays(cyc: Cycle, call: nat, raw: RawMessage, files: map<string, File>, parked: map<string, string>,
                    more: map<string, File>, later: map<string, string>)
    requires IsOnDisk(cyc, call, raw, files, parked) && Extends(files, more)
    requires InPlace(cyc.cfg, parked, raw.id) ==> InPlace(cyc.cfg, later, raw.id)
    ensures IsOnDisk(cyc, call, raw, more, later)
  {
  }

  /** A faultless live cycle leaves the disk as its re-run needs it: over any messages at all where
      failures are quarantined, and over messages that parse where they abort the cycle. */
  lemma {:induction false} CleanCycleDelivers(cyc: Cycle, p: Progress, raws: seq<RawMessage>, ids: set<string>)
    requires Faultless(cyc) && !cyc.cfg.dryRun && FaithfulNames(cyc.cfg, ids) && Sound(cyc.cfg, ids, p)
    requires forall raw | raw in raws :: raw.id in ids && (Parsed(cyc.cfg, raw).Some? || cyc.cfg.onFailure.QuarantineIt?)
    requires forall m, call :: Claim(cyc, call, m).Some? ==> Claim(cyc, call, m).value.dest != ""
    ensures var (q, taken, v) := HandleAll(cyc, p, raws);
            v == Accept && Extends(p.files, q.files) && AllOnDisk(cyc, p.calls, raws, q.files, q.parked)
    decreases |raws|
  {
    if raws != [] {
      HandleDelivers(cyc, p, raws[0], ids);
      var q := Handle(cyc, p, raws[0]).0;
      CleanCycleDelivers(cyc, q, raws[1..], ids);
      var last := HandleAll(cyc, q, raws[1..]).0;
      if InPlace(cyc.cfg, q.parked, raws[0].id) {
        AllKeepPlace(cyc, q, raws[1..], ids, raws[0].id);
      }
      OnDiskStays(cyc, p.calls, raws[0], q.files, q.parked, last.files, last.parked);
    }
  }
}
