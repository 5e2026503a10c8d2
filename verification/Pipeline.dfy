/** What one account's cycle does with each message the provider hands it
    (internal/pipeline/pipeline.go, quarantine.go, manifest.go). */
module Pipeline {
  import opened Text
  import opened Seqs
  import opened Mail
  import opened Filter
  import opened FilterEngine

  datatype FailurePolicy = QuarantineIt | Abort

  datatype DegradedPolicy = Hold | Fail | Proceed

  /** One account's configuration and the components the callback calls: `parse` is the MIME
      parser, None where it errors; `evaluate` is Engine.Evaluate, from a message, the clock and
      the cycle's lists; `path` is Sink.Path, from a message, a dest and a format; `parkingPath`
      is quarantine.path, from an id. */
  datatype Config = Config(
    account: string, onFailure: FailurePolicy, onDegraded: DegradedPolicy, dryRun: bool,
    parse: RawMessage -> Option<Message>, evaluate: (Message, int, Cache) -> Option<Rule>,
    path: (Message, string, Format) -> string, parkingPath: string -> string)

  /** What a quarantine write managed: both files, only the `.eml`, nothing, or part of the `.eml`.
      The file is written in place, so a torn write costs the copy that was there before. */
  datatype Park = Parks | ParksEmlOnly | ParkFails | ParkTears

  /** Everything a cycle does not decide: when a graceful stop is first seen (as a number of
      callback calls), the clock, and which writes fail, per call and per sink. */
  datatype Script = Script(
    stopAt: Option<nat>, clock: nat -> int, sinkFails: (nat, nat) -> bool, park: nat -> Park)

  datatype Cycle = Cycle(cfg: Config, lists: Cache, script: Script)

  datatype Entry = Entry(path: string, format: Format, rule: string, id: string)

  datatype Reason = ParseReason | SinkReason

  datatype QuarantineEntry = QuarantineEntry(path: string, id: string, rule: string, reason: Reason)

  datatype Summary = Summary(
    fetched: nat, matched: nat, stored: nat, skipped: nat,
    parseErrors: nat, sinkErrors: nat, quarantined: nat, vanished: nat)

  const ZERO := Summary(0, 0, 0, 0, 0, 0, 0, 0)

  /** A delivered file: a complete rendering of one message in one format. */
  datatype File = File(id: string, format: Format)

  /** What became of a message the callback accepted, and the cycle it was judged in. */
  datatype Outcome =
    | Unmatched(msg: Message, now: int)
    | Rendered(msg: Message, now: int, rule: Rule)
    | Parked(path: string)

  datatype Fate = Fate(outcome: Outcome, cyc: Cycle)

  /** The account's files and manifest as a cycle builds them up. `calls` counts callback
      calls; for the record, `fates` holds, per id, what became of each accepted message, and
      `torn` the ids whose quarantine copy a failed write left incomplete. */
  datatype Progress = Progress(
    calls: nat, summary: Summary,
    stored: seq<Entry>, skipped: seq<Entry>, quarantined: seq<QuarantineEntry>,
    accounted: seq<string>, files: map<string, File>, parked: map<string, string>,
    fates: map<string, Fate>, torn: set<string>)

  function Begin(files: map<string, File>, parked: map<string, string>): Progress {
    Progress(0, ZERO, [], [], [], [], files, parked, map[], {})
  }

  datatype Verdict = Accept | Stop | Refuse

  // ------------------------------------------------------------------ specification

  function Parsed(cfg: Config, raw: RawMessage): Option<Message> {
    var parsed := cfg.parse(raw);
    if parsed.None? then None
    else Some(parsed.value.(id := raw.id, account := cfg.account, raw := raw.raw))
  }

  function Claim(cyc: Cycle, call: nat, msg: Message): Option<Rule> {
    cyc.cfg.evaluate(msg, cyc.script.clock(call), cyc.lists)
  }

  function Sinks(rule: Rule): seq<Format> { Dedup(rule.formats) }

  function RenderingPath(cfg: Config, msg: Message, rule: Rule, format: Format): string {
    cfg.path(msg, rule.dest, format)
  }

  /** deliver's running totals: whether any rendering is on disk, and whether any failed. */
  datatype Delivery = Delivery(p: Progress, some: bool, failed: bool)

  function StoreOne(cyc: Cycle, call: nat, msg: Message, rule: Rule, format: Format, k: nat, d: Delivery): Delivery {
    var p := d.p;
    if rule.dest == "" || cyc.script.sinkFails(call, k) then
      Delivery(p.(summary := p.summary.(sinkErrors := p.summary.sinkErrors + 1)), d.some, true)
    else
      var path := RenderingPath(cyc.cfg, msg, rule, format);
      var entry := Entry(path, format, rule.name, msg.id);
      if path in p.files then
        Delivery(p.(summary := p.summary.(skipped := p.summary.skipped + 1), skipped := p.skipped + [entry]), true, d.failed)
      else
        Delivery(p.(summary := p.summary.(stored := p.summary.stored + 1), stored := p.stored + [entry],
                    files := if cyc.cfg.dryRun then p.files else p.files[path := File(msg.id, format)]),
                 true, d.failed)
  }

  function DeliverFrom(cyc: Cycle, call: nat, msg: Message, rule: Rule, sinks: seq<Format>, k: nat, d: Delivery): Delivery
    requires k <= |sinks|
    decreases |sinks| - k
  {
    if k == |sinks| then d
    else DeliverFrom(cyc, call, msg, rule, sinks, k + 1, StoreOne(cyc, call, msg, rule, sinks[k], k, d))
  }

  /** on_message_failure applied to one message. */
  function Failed(cyc: Cycle, call: nat, p: Progress, raw: RawMessage, rule: string, reason: Reason): (Progress, Verdict) {
    if cyc.cfg.onFailure.Abort? then (p, Refuse)
    else
      var path := cyc.cfg.parkingPath(raw.id);
      var parked := p.parked[path := raw.id];
      var done := p.(summary := p.summary.(quarantined := p.summary.quarantined + 1),
                     quarantined := p.quarantined + [QuarantineEntry(path, raw.id, rule, reason)],
                     accounted := p.accounted + [raw.id],
                     fates := p.fates[raw.id := Fate(Parked(path), cyc)]);
      if cyc.cfg.dryRun then (done, Accept)
      else
        match cyc.script.park(call)
        case ParkFails => (p, Refuse)
        case ParkTears => (p.(parked := p.parked - {path}, torn := p.torn + {raw.id}), Refuse)
        case ParksEmlOnly => (p.(parked := parked), Refuse)
        case Parks => (done.(parked := parked), Accept)
  }

  /** One more message taken from the provider. */
  function Take(p: Progress): Progress {
    p.(calls := p.calls + 1, summary := p.summary.(fetched := p.summary.fetched + 1))
  }

  function CountParseError(p: Progress): Progress {
    p.(summary := p.summary.(parseErrors := p.summary.parseErrors + 1))
  }

  function CountMatch(p: Progress): Progress { p.(summary := p.summary.(matched := p.summary.matched + 1)) }

  function Settle(p: Progress, id: string, outcome: Outcome, cyc: Cycle): Progress {
    p.(fates := p.fates[id := Fate(outcome, cyc)])
  }

  /** A message some rule claimed: fanned out to its sinks, and failed if any of them did. */
  function Claimed(cyc: Cycle, call: nat, p: Progress, raw: RawMessage, msg: Message, rule: Rule): (Progress, Verdict) {
    var d := DeliverFrom(cyc, call, msg, rule, Sinks(rule), 0, Delivery(CountMatch(p), false, false));
    if d.failed then Failed(cyc, call, d.p, raw, rule.name, SinkReason)
    else
      (Settle(d.p.(accounted := if d.some then d.p.accounted + [msg.id] else d.p.accounted),
              raw.id, Rendered(msg, cyc.script.clock(call), rule), cyc), Accept)
  }

  predicate StopSeen(cyc: Cycle, p: Progress) {
    cyc.script.stopAt.Some? && p.calls >= cyc.script.stopAt.value
  }

  /** The callback: one message offered by the provider. */
  function Handle(cyc: Cycle, p: Progress, raw: RawMessage): (Progress, Verdict) {
    if StopSeen(cyc, p) then (p, Stop)
    else
      var call, parsed := p.calls, Parsed(cyc.cfg, raw);
      if parsed.None? then Failed(cyc, call, CountParseError(Take(p)), raw, "", ParseReason)
      else
        var claim := Claim(cyc, call, parsed.value);
        if claim.None? then
          (Settle(Take(p), raw.id, Unmatched(parsed.value, cyc.script.clock(call)), cyc), Accept)
        else Claimed(cyc, call, Take(p), raw, parsed.value, claim.value)
  }

  // ----------------------------------------------------------------- implementation

  /** The state the fetch callback closes over, and the callback itself. */
  class FetchCallback {
    const cyc: Cycle
    var calls: nat
    var summary: Summary
    var stored: seq<Entry>
    var skipped: seq<Entry>
    var quarantined: seq<QuarantineEntry>
    var accounted: seq<string>
    var files: map<string, File>
    var parked: map<string, string>
    ghost var fates: map<string, Fate>
    ghost var torn: set<string>

    ghost function Value(): Progress
      reads this
    {
      Progress(calls, summary, stored, skipped, quarantined, accounted, files, parked, fates, torn)
    }

    constructor (cyc: Cycle, files: map<string, File>, parked: map<string, string>)
      ensures this.cyc == cyc && Value() == Begin(files, parked)
    {
      this.cyc := cyc;
      calls, summary := 0, ZERO;
      stored, skipped, quarantined, accounted := [], [], [], [];
      this.files, this.parked := files, parked;
      fates, torn := map[], {};
    }

    /** One sink's turn: the rendering is written, already there, or failed. */
    method Store(call: nat, msg: Message, rule: Rule, format: Format, k: nat) returns (ok: bool)
      modifies this
      ensures forall some, failed ::
        StoreOne(cyc, call, msg, rule, format, k, Delivery(old(Value()), some, failed))
        == Delivery(Value(), some || ok, failed || !ok)
    {
      if rule.dest == "" || cyc.script.sinkFails(call, k) {
        summary := summary.(sinkErrors := summary.sinkErrors + 1);
        return false;
      }
      var path := RenderingPath(cyc.cfg, msg, rule, format);
      var entry := Entry(path, format, rule.name, msg.id);
      if path in files {
        skipped := skipped + [entry];
        summary := summary.(skipped := summary.skipped + 1);
        return true;
      }
      if !cyc.cfg.dryRun {
        files := files[path := File(msg.id, format)];
      }
      stored := stored + [entry];
      summary := summary.(stored := summary.stored + 1);
      ok := true;
    }

    /** deliver: fans one matched message out to every format its rule asks for. */
    method Deliver(call: nat, msg: Message, rule: Rule) returns (some: bool, failed: bool)
      modifies this
      ensures Delivery(Value(), some, failed)
           == DeliverFrom(cyc, call, msg, rule, Sinks(rule), 0, Delivery(old(Value()), false, false))
    {
      var sinks := Sinks(rule);
      some, failed := false, false;
      var k := 0;
      while k < |sinks|
        invariant 0 <= k <= |sinks|
        invariant DeliverFrom(cyc, call, msg, rule, sinks, 0, Delivery(old(Value()), false, false))
               == DeliverFrom(cyc, call, msg, rule, sinks, k, Delivery(Value(), some, failed))
      {
        var ok := Store(call, msg, rule, sinks[k], k);
        some, failed := some || ok, failed || !ok;
        k := k + 1;
      }
    }

    method MessageFailed(call: nat, raw: RawMessage, rule: string, reason: Reason) returns (v: Verdict)
      modifies this
      ensures (Value(), v) == Failed(cyc, call, old(Value()), raw, rule, reason)
    {
      if cyc.cfg.onFailure.Abort? {
        return Refuse;
      }
      var path := cyc.cfg.parkingPath(raw.id);
      if !cyc.cfg.dryRun {
        var written := cyc.script.park(call);
        if written.ParkTears? {
          parked := parked - {path};
          torn := torn + {raw.id};
        } else if !written.ParkFails? {
          parked := parked[path := raw.id];
        }
        if !written.Parks? {
          return Refuse;
        }
      }
      summary := summary.(quarantined := summary.quarantined + 1);
      quarantined := quarantined + [QuarantineEntry(path, raw.id, rule, reason)];
      accounted := accounted + [raw.id];
      fates := fates[raw.id := Fate(Parked(path), cyc)];
      v := Accept;
    }

    method Fanout(call: nat, raw: RawMessage, msg: Message, rule: Rule) returns (v: Verdict)
      modifies this
      ensures (Value(), v) == Claimed(cyc, call, old(Value()), raw, msg, rule)
    {
      summary := summary.(matched := summary.matched + 1);
      var some, failed := Deliver(call, msg, rule);
      if failed {
        v := MessageFailed(call, raw, rule.name, SinkReason);
        return;
      }
      if some {
        accounted := accounted + [msg.id];
      }
      fates := fates[raw.id := Fate(Rendered(msg, cyc.script.clock(call), rule), cyc)];
      v := Accept;
    }

    method Call(raw: RawMessage) returns (v: Verdict)
      modifies this
      ensures (Value(), v) == Handle(cyc, old(Value()), raw)
    {
      if cyc.script.stopAt.Some? && calls >= cyc.script.stopAt.value {
        return Stop;
      }
      var call := calls;
      calls := calls + 1;
      summary := summary.(fetched := summary.fetched + 1);
      var parsed := Parsed(cyc.cfg, raw);
      if parsed.None? {
        summary := summary.(parseErrors := summary.parseErrors + 1);
        v := MessageFailed(call, raw, "", ParseReason);
        return;
      }
      var claim := Claim(cyc, call, parsed.value);
      if claim.None? {
        fates := fates[raw.id := Fate(Unmatched(parsed.value, cyc.script.clock(call)), cyc)];
        return Accept;
      }
      v := Fanout(call, raw, parsed.value, claim.value);
    }
  }

  // -------------------------------------------------------- keeping or discarding state

  /** How a fetch ended, as cycleAccount grades it. */
  datatype Ending = Completed | Stopped | Aborted | ProviderFailed

  /** cycle.hold. */
  predicate Holds(cyc: Cycle) { cyc.lists.degraded != map[] && cyc.cfg.onDegraded.Hold? }

  /** on_degraded_filter: fail. The cycle gives up before its first fetch. */
  predicate Skips(cyc: Cycle) { cyc.lists.degraded != map[] && cyc.cfg.onDegraded.Fail? }

  /** Whether the state a fetch reached is saved. */
  predicate Saves(cyc: Cycle, ending: Ending) {
    (ending.Completed? || ending.Stopped?) && !cyc.cfg.dryRun && !Holds(cyc)
  }
}
