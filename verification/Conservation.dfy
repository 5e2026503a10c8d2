/** What holds of a whole fetch by either provider: its manifest adds up, and a dry run touches
    nothing. */
module Conservation {
  import opened Seqs
  import opened Mail
  import opened FilterEngine
  import opened Sync
  import opened Pipeline
  import opened PipelineTheorems
  import opened Offers
  import Imap
  import Gmail

  // ------------------------------------------------------------------------- manifests

  /** What a manifest must be for the messages offered: as many as were looked at were each matched,
      unmatched or a parse error, every rendering asked for was stored, skipped or failed, and every
      array has its counter's length. */
  ghost predicate AddsUp(cyc: Cycle, offered: seq<RawMessage>, taken: nat, p: Progress) {
    taken <= |offered| && ArraysMatch(p) && Moved(ZERO, p.summary, Tallied(cyc, 0, offered[..taken]), taken)
  }

  /** How many of the messages offered are looked at: all of them, or up to the one it ends with. */
  ghost predicate LooksAt(cyc: Cycle, offered: seq<RawMessage>, taken: nat) {
    || (taken == |offered| && AcceptedTo(cyc, 0, offered, taken))
    || EndsAt(cyc, 0, offered, taken, Stop)
    || (taken > 0 && EndsAt(cyc, 0, offered, taken - 1, Refuse))
  }

  lemma HandedAddsUp(cyc: Cycle, files: map<string, File>, parked: map<string, string>, offered: seq<RawMessage>) returns (taken: nat)
    ensures LooksAt(cyc, offered, taken) && AddsUp(cyc, offered, taken, HandleAll(cyc, Begin(files, parked), offered).0)
  {
    var p := Begin(files, parked);
    CountsAreConserved(cyc, p, offered);
    HandleAllEnds(cyc, p, offered);
    taken := HandleAll(cyc, p, offered).1;
  }

  /** Whatever the mailboxes, stops and failures, an IMAP fetch's manifest adds up over the messages
      it offered and looked at. */
  lemma ImapManifestAddsUp(o: Imap.Options, s: Imap.Session, st: State, cyc: Cycle, files: map<string, File>, parked: map<string, string>)
    returns (taken: nat)
    ensures LooksAt(cyc, ImapOffered(o, s, st), taken)
    ensures AddsUp(cyc, ImapOffered(o, s, st), taken, Imap.Fetch(o, s, st, cyc, Begin(files, parked)).p)
  {
    ImapFetchHands(o, s, st, cyc, Begin(files, parked));
    taken := HandedAddsUp(cyc, files, parked, ImapOffered(o, s, st));
  }

  /** The same for a Gmail fetch, whatever its route. */
  lemma GmailManifestAddsUp(o: Gmail.Options, s: Gmail.Session, st: State, cyc: Cycle, files: map<string, File>, parked: map<string, string>)
    returns (taken: nat)
    ensures LooksAt(cyc, GmailOffered(o, s, st), taken)
    ensures AddsUp(cyc, GmailOffered(o, s, st), taken, Gmail.Fetch(o, s, st, cyc, Begin(files, parked)).p)
  {
    GmailFetchHands(o, s, st, cyc, Begin(files, parked));
    taken := HandedAddsUp(cyc, files, parked, GmailOffered(o, s, st));
  }

  /** Downloads that brought a message which Spam or Trash excludes. */
  function ExcludedAmong(o: Gmail.Options, answers: seq<Gmail.Answer>): nat {
    if answers == [] then 0
    else ExcludedAmong(o, answers[1..]) + if answers[0].Got? && Gmail.Excluded(o, answers[0].raw) then 1 else 0
  }

  lemma {:induction false} DrainAddsUp(o: Gmail.Options, s: Gmail.Session, k: nat, seen: seq<string>, cyc: Cycle, p: Progress)
    requires k <= |s.answers| && ArraysMatch(p)
    requires Gmail.Drain(o, s, k, seen, cyc, p).end.Done?
    ensures Gmail.Drain(o, s, k, seen, cyc, p).p.summary.fetched + Gmail.VanishedFrom(o, s, k, seen, cyc, p)
            + ExcludedAmong(o, s.answers[k..]) == p.summary.fetched + |s.answers| - k
    decreases |s.answers| - k
  {
    if k < |s.answers| {
      var answer := s.answers[k];
      assert s.answers[k..][1..] == s.answers[k + 1..];
      if answer.Got? && !Gmail.Excluded(o, answer.raw) {
        HandleCounts(cyc, p, answer.raw);
        var (q, verdict) := Handle(cyc, p, answer.raw);
        DrainAddsUp(o, s, k + 1, Marked(seen, answer.raw.id), cyc, q);
      } else {
        DrainAddsUp(o, s, k + 1, seen, cyc, p);
      }
    }
  }

  /** Every download of a Gmail fetch that got through is accounted for once: its message was fetched,
      had vanished, or was in Spam or Trash. */
  lemma GmailDownloadsAddUp(o: Gmail.Options, s: Gmail.Session, st: State, cyc: Cycle, files: map<string, File>, parked: map<string, string>)
    requires Gmail.Fetch(o, s, st, cyc, Begin(files, parked)).end.Done?
    ensures var fetched, n := Gmail.Fetch(o, s, st, cyc, Begin(files, parked)).p.summary.fetched, Gmail.Vanished(o, s, st, cyc, Begin(files, parked));
            || fetched + n + ExcludedAmong(o, s.answers) == |s.answers|
            || (fetched == n == 0 && NothingPending(s, st))
  {
    if !NothingPending(s, st) {
      DrainAddsUp(o, s, 0, st.seen, cyc, Begin(files, parked));
      assert s.answers[0..] == s.answers;
    }
  }

  /** Nothing listed that has not been seen. */
  predicate NothingPending(s: Gmail.Session, st: State) {
    var listed := if st.historyId > 0 && s.historyWalk.Complete? then Gmail.HistoryIdsOf(s.history) else Gmail.ListedIds(s.listing);
    Gmail.Pending(Dedup(listed), st.seen) == []
  }

  // -------------------------------------------------------------------------- dry runs

  ghost predicate Untouched(p: Progress, q: Progress) { q.files == p.files && q.parked == p.parked && q.torn == p.torn }

  lemma {:induction false} DeliverDry(cyc: Cycle, call: nat, msg: Message, rule: Rule, sinks: seq<Format>, k: nat, d: Delivery)
    requires cyc.cfg.dryRun && k <= |sinks|
    ensures Untouched(d.p, DeliverFrom(cyc, call, msg, rule, sinks, k, d).p)
    decreases |sinks| - k
  {
    if k < |sinks| {
      DeliverDry(cyc, call, msg, rule, sinks, k + 1, StoreOne(cyc, call, msg, rule, sinks[k], k, d));
    }
  }

  lemma HandleDry(cyc: Cycle, p: Progress, raw: RawMessage)
    requires cyc.cfg.dryRun
    ensures Untouched(p, Handle(cyc, p, raw).0)
  {
    var parsed := Parsed(cyc.cfg, raw);
    if parsed.Some? && Claim(cyc, p.calls, parsed.value).Some? {
      var rule := Claim(cyc, p.calls, parsed.value).value;
      DeliverDry(cyc, p.calls, parsed.value, rule, Sinks(rule), 0, Delivery(CountMatch(Take(p)), false, false));
    }
  }

  lemma {:induction false} HandleAllDry(cyc: Cycle, p: Progress, raws: seq<RawMessage>)
    requires cyc.cfg.dryRun
    ensures Untouched(p, HandleAll(cyc, p, raws).0)
    decreases |raws|
  {
    if raws != [] {
      HandleDry(cyc, p, raws[0]);
      HandleAllDry(cyc, Handle(cyc, p, raws[0]).0, raws[1..]);
    }
  }

  /** A dry run of an IMAP account leaves its files and its quarantine as they were, whatever happens
      in it, and saves nothing. */
  lemma ImapDryRunTouchesNothing(o: Imap.Options, s: Imap.Session, st: State, cyc: Cycle, p: Progress, ending: Ending)
    requires cyc.cfg.dryRun
    ensures Untouched(p, Imap.Fetch(o, s, st, cyc, p).p) && !Saves(cyc, ending)
  {
    ImapFetchHands(o, s, st, cyc, p);
    HandleAllDry(cyc, p, ImapOffered(o, s, st));
  }

  lemma GmailDryRunTouchesNothing(o: Gmail.Options, s: Gmail.Session, st: State, cyc: Cycle, p: Progress, ending: Ending)
    requires cyc.cfg.dryRun
    ensures Untouched(p, Gmail.Fetch(o, s, st, cyc, p).p) && !Saves(cyc, ending)
  {
    GmailFetchHands(o, s, st, cyc, p);
    HandleAllDry(cyc, p, GmailOffered(o, s, st));
  }
}
