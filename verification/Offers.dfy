/** What a fetch offers its callback, and the verdict each message meets there: both are settled
    by the server, the stored cursor and the script, before the callback is first called. */
module Offers {
  import opened Text
  import opened Seqs
  import opened Mail
  import opened FilterEngine
  import opened Sync
  import opened Pipeline
  import opened PipelineTheorems
  import Imap
  import Gmail

  // ----------------------------------------------------------------- one message's verdict

  /** Some rendering of a message claimed by this rule fails. */
  ghost predicate SinkFails(cyc: Cycle, call: nat, rule: Rule, from: nat) {
    exists k | from <= k < |Sinks(rule)| :: SinkFailsAt(cyc, call, rule, k)
  }

  predicate SinkFailsAt(cyc: Cycle, call: nat, rule: Rule, k: nat) { rule.dest == "" || cyc.script.sinkFails(call, k) }

  /** A message that does not parse, or of which some rendering fails. */
  ghost predicate Undeliverable(cyc: Cycle, call: nat, raw: RawMessage) {
    var parsed := Parsed(cyc.cfg, raw);
    parsed.None? || (var claim := Claim(cyc, call, parsed.value); claim.Some? && SinkFails(cyc, call, claim.value, 0))
  }

  /** The verdict on the message the callback is called with for the call-th time. */
  ghost function VerdictAt(cyc: Cycle, call: nat, raw: RawMessage): Verdict {
    if cyc.script.stopAt.Some? && call >= cyc.script.stopAt.value then Stop
    else if !Undeliverable(cyc, call, raw) then Accept
    else if cyc.cfg.onFailure.Abort? then Refuse
    else if cyc.cfg.dryRun || cyc.script.park(call) == Parks then Accept
    else Refuse
  }

  lemma {:induction false} DeliverFails(cyc: Cycle, call: nat, msg: Message, rule: Rule, k: nat, d: Delivery)
    requires k <= |Sinks(rule)|
    ensures DeliverFrom(cyc, call, msg, rule, Sinks(rule), k, d).failed <==> d.failed || SinkFails(cyc, call, rule, k)
    decreases |Sinks(rule)| - k
  {
    if k < |Sinks(rule)| {
      DeliverFails(cyc, call, msg, rule, k + 1, StoreOne(cyc, call, msg, rule, Sinks(rule)[k], k, d));
      assert SinkFails(cyc, call, rule, k) <==> SinkFailsAt(cyc, call, rule, k) || SinkFails(cyc, call, rule, k + 1);
    }
  }

  /** The callback decides as foreseen. */
  lemma HandleVerdict(cyc: Cycle, p: Progress, raw: RawMessage)
    ensures var (q, v) := Handle(cyc, p, raw);
            v == VerdictAt(cyc, p.calls, raw) && q.calls == if v == Stop then p.calls else p.calls + 1
  {
    var parsed := Parsed(cyc.cfg, raw);
    if parsed.Some? && Claim(cyc, p.calls, parsed.value).Some? {
      var rule := Claim(cyc, p.calls, parsed.value).value;
      var before := Delivery(CountMatch(Take(p)), false, false);
      DeliverFails(cyc, p.calls, parsed.value, rule, 0, before);
      DeliverTouchesOnlyFiles(cyc, p.calls, parsed.value, rule, Sinks(rule), 0, before);
    }
  }

  // ------------------------------------------------------------------- a list of messages

  /** The first n messages offered are accepted. */
  ghost predicate AcceptedTo(cyc: Cycle, call: nat, raws: seq<RawMessage>, n: nat) {
    n <= |raws| && forall i | 0 <= i < n :: VerdictAt(cyc, call + i, raws[i]) == Accept
  }

  /** The n-th message offered is the first not accepted. */
  ghost predicate EndsAt(cyc: Cycle, call: nat, raws: seq<RawMessage>, n: nat, v: Verdict) {
    n < |raws| && AcceptedTo(cyc, call, raws, n) && VerdictAt(cyc, call + n, raws[n]) == v && v != Accept
  }

  /** One more message, accepted, before the rest. */
  function Before(rest: (Progress, nat, Verdict)): (Progress, nat, Verdict) { (rest.0, rest.1 + 1, rest.2) }

  lemma HandleAllCons(cyc: Cycle, p: Progress, raws: seq<RawMessage>, q: Progress)
    requires raws != [] && Handle(cyc, p, raws[0]) == (q, Accept)
    ensures HandleAll(cyc, p, raws) == Before(HandleAll(cyc, q, raws[1..]))
  {
  }

  lemma HandleAllFirst(cyc: Cycle, p: Progress, raws: seq<RawMessage>, q: Progress, v: Verdict)
    requires raws != [] && Handle(cyc, p, raws[0]) == (q, v) && v != Accept
    ensures HandleAll(cyc, p, raws) == (q, if v == Stop then 0 else 1, v)
  {
  }

  lemma AcceptedCons(cyc: Cycle, call: nat, raws: seq<RawMessage>, n: nat)
    requires raws != [] && VerdictAt(cyc, call, raws[0]) == Accept && AcceptedTo(cyc, call + 1, raws[1..], n)
    ensures AcceptedTo(cyc, call, raws, n + 1)
  {
    forall i | 0 <= i < n + 1 ensures VerdictAt(cyc, call + i, raws[i]) == Accept {
      if i > 0 {
        assert raws[1..][i - 1] == raws[i] && call + 1 + (i - 1) == call + i;
      }
    }
  }

  lemma EndsCons(cyc: Cycle, call: nat, raws: seq<RawMessage>, n: nat, v: Verdict)
    requires raws != [] && VerdictAt(cyc, call, raws[0]) == Accept && EndsAt(cyc, call + 1, raws[1..], n, v)
    ensures EndsAt(cyc, call, raws, n + 1, v)
  {
    AcceptedCons(cyc, call, raws, n);
    assert raws[1..][n] == raws[n + 1] && call + 1 + n == call + (n + 1);
  }

  /** The index of the message a fetch ended with. */
  function LastIndex(taken: nat, v: Verdict): int { if v == Refuse then taken - 1 else taken }

  /** How handing messages over came out, against the verdicts foreseen. */
  ghost predicate EndsWell(cyc: Cycle, call: nat, raws: seq<RawMessage>, taken: nat, v: Verdict) {
    if v == Accept then taken == |raws| && AcceptedTo(cyc, call, raws, taken)
    else LastIndex(taken, v) >= 0 && EndsAt(cyc, call, raws, LastIndex(taken, v), v)
  }

  lemma EndsWellCons(cyc: Cycle, call: nat, raws: seq<RawMessage>, taken: nat, v: Verdict)
    requires raws != [] && VerdictAt(cyc, call, raws[0]) == Accept && EndsWell(cyc, call + 1, raws[1..], taken, v)
    ensures EndsWell(cyc, call, raws, taken + 1, v)
  {
    if v == Accept {
      AcceptedCons(cyc, call, raws, taken);
    } else {
      EndsCons(cyc, call, raws, LastIndex(taken, v), v);
    }
  }

  /** Handing messages over ends at the first that is not accepted, and else with all of them. */
  lemma {:induction false} HandleAllEnds(cyc: Cycle, p: Progress, raws: seq<RawMessage>)
    ensures EndsWell(cyc, p.calls, raws, HandleAll(cyc, p, raws).1, HandleAll(cyc, p, raws).2)
    decreases |raws|
  {
    if raws != [] {
      HandleVerdict(cyc, p, raws[0]);
      var (q, v) := Handle(cyc, p, raws[0]);
      if v == Accept {
        HandleAllEnds(cyc, q, raws[1..]);
        HandleAllCons(cyc, p, raws, q);
        EndsWellCons(cyc, p.calls, raws, HandleAll(cyc, q, raws[1..]).1, HandleAll(cyc, q, raws[1..]).2);
      } else {
        HandleAllFirst(cyc, p, raws, q, v);
        EndsWellFirst(cyc, p.calls, raws, v);
      }
    }
  }

  lemma EndsWellFirst(cyc: Cycle, call: nat, raws: seq<RawMessage>, v: Verdict)
    requires raws != [] && VerdictAt(cyc, call, raws[0]) == v && v != Accept
    ensures EndsWell(cyc, call, raws, if v == Stop then 0 else 1, v)
  {
  }

  lemma OneEnd(cyc: Cycle, call: nat, raws: seq<RawMessage>, m: nat, u: Verdict, n: nat, v: Verdict)
    requires EndsAt(cyc, call, raws, m, u) && EndsAt(cyc, call, raws, n, v)
    ensures m == n && u == v
  {
  }

  /** A graceful stop is seen while these messages are offered: as many as it waits for have been
      accepted, and there is one more. */
  ghost predicate StopsAmong(cyc: Cycle, raws: seq<RawMessage>) {
    cyc.script.stopAt.Some? && cyc.script.stopAt.value < |raws| && AcceptedTo(cyc, 0, raws, cyc.script.stopAt.value)
  }

  /** Exactly when handing messages over is stopped. */
  lemma StopsExactly(cyc: Cycle, p: Progress, raws: seq<RawMessage>)
    requires p.calls == 0
    ensures HandleAll(cyc, p, raws).2 == Stop <==> StopsAmong(cyc, raws)
    ensures StopsAmong(cyc, raws) ==> HandleAll(cyc, p, raws).1 == cyc.script.stopAt.value
  {
    HandleAllEnds(cyc, p, raws);
    var (_, taken, v) := HandleAll(cyc, p, raws);
    assert v == Stop ==> cyc.script.stopAt.value < taken ==>
             VerdictAt(cyc, cyc.script.stopAt.value, raws[cyc.script.stopAt.value]) == Accept;
    if StopsAmong(cyc, raws) {
      var n := cyc.script.stopAt.value;
      assert VerdictAt(cyc, n, raws[n]) == Stop;
      assert EndsAt(cyc, 0, raws, n, Stop);
      if v != Accept {
        OneEnd(cyc, 0, raws, n, Stop, LastIndex(taken, v), v);
      }
    }
  }

  /** The write that parks this message fails partway, in place, over whatever was there: the n-th
      message offered, after n accepted ones. */
  ghost predicate TearsAt(cyc: Cycle, raws: seq<RawMessage>, n: nat, id: string) {
    && EndsAt(cyc, 0, raws, n, Refuse) && raws[n].id == id
    && cyc.cfg.onFailure.QuarantineIt? && cyc.script.park(n) == ParkTears
  }

  ghost predicate Tears(cyc: Cycle, raws: seq<RawMessage>, id: string) { exists n: nat :: TearsAt(cyc, raws, n, id) }

  /** The copies torn by the time this many messages have been taken, the last with this verdict. */
  function TornBy(cyc: Cycle, call: nat, raws: seq<RawMessage>, taken: nat, v: Verdict): set<string> {
    if v == Refuse && 0 < taken <= |raws| && cyc.cfg.onFailure.QuarantineIt? && cyc.script.park(call + taken - 1) == ParkTears
    then {raws[taken - 1].id} else {}
  }

  lemma HandleTears(cyc: Cycle, p: Progress, raw: RawMessage)
    ensures Handle(cyc, p, raw).0.torn == p.torn + TornBy(cyc, p.calls, [raw], 1, Handle(cyc, p, raw).1)
  {
    var parsed := Parsed(cyc.cfg, raw);
    if parsed.Some? && Claim(cyc, p.calls, parsed.value).Some? {
      var rule := Claim(cyc, p.calls, parsed.value).value;
      DeliverTouchesOnlyFiles(cyc, p.calls, parsed.value, rule, Sinks(rule), 0, Delivery(CountMatch(Take(p)), false, false));
    }
  }

  lemma TornByCons(cyc: Cycle, call: nat, raws: seq<RawMessage>, taken: nat, v: Verdict)
    requires raws != [] && taken < |raws| && (v == Refuse ==> taken > 0)
    ensures TornBy(cyc, call, raws, taken + 1, v) == TornBy(cyc, call + 1, raws[1..], taken, v)
  {
  }

  lemma {:induction false} HandleAllTears(cyc: Cycle, p: Progress, raws: seq<RawMessage>)
    ensures var (q, taken, v) := HandleAll(cyc, p, raws); q.torn == p.torn + TornBy(cyc, p.calls, raws, taken, v)
    decreases |raws|
  {
    if raws != [] {
      HandleTears(cyc, p, raws[0]);
      HandleVerdict(cyc, p, raws[0]);
      var (q, v) := Handle(cyc, p, raws[0]);
      if v == Accept {
        HandleAllTears(cyc, q, raws[1..]);
        HandleAllEnds(cyc, q, raws[1..]);
        HandleAllCons(cyc, p, raws, q);
        TornByCons(cyc, p.calls, raws, HandleAll(cyc, q, raws[1..]).1, HandleAll(cyc, q, raws[1..]).2);
      } else {
        HandleAllFirst(cyc, p, raws, q, v);
        TornByFirst(cyc, p.calls, raws, v);
      }
    }
  }

  lemma TornByFirst(cyc: Cycle, call: nat, raws: seq<RawMessage>, v: Verdict)
    requires raws != [] && v != Accept
    ensures TornBy(cyc, call, raws, if v == Stop then 0 else 1, v)
         == if v == Refuse && cyc.cfg.onFailure.QuarantineIt? && cyc.script.park(call) == ParkTears then {raws[0].id} else {}
  {
  }

  lemma TornByIs(cyc: Cycle, p: Progress, raws: seq<RawMessage>, id: string)
    requires p.calls == 0
    ensures var (_, taken, v) := HandleAll(cyc, p, raws); id in TornBy(cyc, 0, raws, taken, v) <==> Tears(cyc, raws, id)
  {
    HandleAllEnds(cyc, p, raws);
    var (_, taken, v) := HandleAll(cyc, p, raws);
    if id in TornBy(cyc, 0, raws, taken, v) {
      assert TearsAt(cyc, raws, taken - 1, id);
    }
    if n: nat :| TearsAt(cyc, raws, n, id) {
      if v != Accept {
        OneEnd(cyc, 0, raws, n, Refuse, LastIndex(taken, v), v);
      }
    }
  }

  /** Exactly which messages' copies handing messages over tears. */
  lemma TearsExactly(cyc: Cycle, p: Progress, raws: seq<RawMessage>, id: string)
    requires p.calls == 0
    ensures id in HandleAll(cyc, p, raws).0.torn <==> id in p.torn || Tears(cyc, raws, id)
  {
    HandleAllTears(cyc, p, raws);
    TornByIs(cyc, p, raws, id);
  }

  lemma HandleParked(cyc: Cycle, p: Progress, raw: RawMessage, ids: set<string>, id: string)
    requires !cyc.cfg.dryRun && FaithfulNames(cyc.cfg, ids) && id in ids && raw.id in ids && InPlace(cyc.cfg, p.parked, id)
    ensures var (q, v) := Handle(cyc, p, raw); InPlace(cyc.cfg, q.parked, id) <==> id !in TornBy(cyc, p.calls, [raw], 1, v)
  {
    var parsed := Parsed(cyc.cfg, raw);
    if parsed.Some? && Claim(cyc, p.calls, parsed.value).Some? {
      var rule := Claim(cyc, p.calls, parsed.value).value;
      DeliverTouchesOnlyFiles(cyc, p.calls, parsed.value, rule, Sinks(rule), 0, Delivery(CountMatch(Take(p)), false, false));
    }
  }

  lemma {:induction false} HandleAllParked(cyc: Cycle, p: Progress, raws: seq<RawMessage>, ids: set<string>, id: string)
    requires !cyc.cfg.dryRun && FaithfulNames(cyc.cfg, ids) && id in ids && InPlace(cyc.cfg, p.parked, id)
    requires forall raw | raw in raws :: raw.id in ids
    ensures var (q, taken, v) := HandleAll(cyc, p, raws);
            InPlace(cyc.cfg, q.parked, id) <==> id !in TornBy(cyc, p.calls, raws, taken, v)
    decreases |raws|
  {
    if raws != [] {
      HandleParked(cyc, p, raws[0], ids, id);
      HandleVerdict(cyc, p, raws[0]);
      var (q, v) := Handle(cyc, p, raws[0]);
      if v == Accept {
        assert TornBy(cyc, p.calls, [raws[0]], 1, Accept) == {};
        HandleAllParked(cyc, q, raws[1..], ids, id);
        HandleAllEnds(cyc, q, raws[1..]);
        HandleAllCons(cyc, p, raws, q);
        TornByCons(cyc, p.calls, raws, HandleAll(cyc, q, raws[1..]).1, HandleAll(cyc, q, raws[1..]).2);
      } else {
        HandleAllFirst(cyc, p, raws, q, v);
        TornByFirst(cyc, p.calls, raws, v);
      }
    }
  }

  /** Exactly when an earlier quarantine copy outlives a whole fetch: unless its message is the first
      one refused, and the write that parks it again, in place, fails partway. */
  lemma CopySurvivesExactly(cyc: Cycle, p: Progress, raws: seq<RawMessage>, ids: set<string>, id: string)
    requires p.calls == 0 && !cyc.cfg.dryRun && FaithfulNames(cyc.cfg, ids) && id in ids
    requires InPlace(cyc.cfg, p.parked, id) && forall raw | raw in raws :: raw.id in ids
    ensures InPlace(cyc.cfg, HandleAll(cyc, p, raws).0.parked, id) <==> !Tears(cyc, raws, id)
  {
    HandleAllParked(cyc, p, raws, ids, id);
    TornByIs(cyc, p, raws, id);
  }

  // --------------------------------------------------------------------- joining two lists

  /** Two lists handed over, one after the other if all of the first is accepted. */
  function Joined(cyc: Cycle, first: (Progress, nat, Verdict), more: seq<RawMessage>): (Progress, nat, Verdict) {
    if first.2 != Accept then first
    else var rest := HandleAll(cyc, first.0, more); (rest.0, first.1 + rest.1, rest.2)
  }

  lemma JoinedBefore(cyc: Cycle, first: (Progress, nat, Verdict), more: seq<RawMessage>)
    ensures Joined(cyc, Before(first), more) == Before(Joined(cyc, first, more))
  {
  }

  /** Handing over one list and, if all of it is accepted, another is handing over both. */
  lemma {:induction false} HandleAllConcat(cyc: Cycle, p: Progress, raws: seq<RawMessage>, more: seq<RawMessage>)
    ensures HandleAll(cyc, p, raws + more) == Joined(cyc, HandleAll(cyc, p, raws), more)
    decreases |raws|
  {
    var all := raws + more;
    if raws == [] {
      assert all == more;
    } else {
      var (q, v) := Handle(cyc, p, raws[0]);
      assert all[0] == raws[0] && all[1..] == raws[1..] + more;
      if v == Accept {
        HandleAllCons(cyc, p, raws, q);
        HandleAllCons(cyc, p, all, q);
        HandleAllConcat(cyc, q, raws[1..], more);
        JoinedBefore(cyc, HandleAll(cyc, q, raws[1..]), more);
      } else {
        HandleAllFirst(cyc, p, raws, q, v);
        HandleAllFirst(cyc, p, all, q, v);
      }
    }
  }

  /** A fetch from p did what handing over these messages does, and broke off only as that did:
      `declined` is the id of the message it was broken off at. */
  ghost predicate Hands(cyc: Cycle, p: Progress, raws: seq<RawMessage>, q: Progress, verdict: Verdict, declined: string) {
    var (all, taken, v) := HandleAll(cyc, p, raws);
    && q == all && verdict == v
    && (v != Accept ==> 0 <= LastIndex(taken, v) < |raws| && raws[LastIndex(taken, v)].id == declined)
  }

  lemma HandsOne(cyc: Cycle, p: Progress, raw: RawMessage, rest: seq<RawMessage>, q: Progress, v: Verdict, declined: string)
    requires Handle(cyc, p, raw).1 == Accept && Hands(cyc, Handle(cyc, p, raw).0, rest, q, v, declined)
    ensures Hands(cyc, p, [raw] + rest, q, v, declined)
  {
    var raws := [raw] + rest;
    assert raws[1..] == rest;
    HandleAllCons(cyc, p, raws, Handle(cyc, p, raw).0);
  }

  lemma HandsLast(cyc: Cycle, p: Progress, raw: RawMessage, rest: seq<RawMessage>)
    requires Handle(cyc, p, raw).1 != Accept
    ensures Hands(cyc, p, [raw] + rest, Handle(cyc, p, raw).0, Handle(cyc, p, raw).1, raw.id)
  {
    HandleRecords(cyc, p, raw);
  }

  lemma HandsBoth(cyc: Cycle, p: Progress, raws: seq<RawMessage>, q: Progress, more: seq<RawMessage>, r: Progress, v: Verdict, declined: string)
    requires Hands(cyc, p, raws, q, Accept, "") && Hands(cyc, q, more, r, v, declined)
    ensures Hands(cyc, p, raws + more, r, v, declined)
  {
    HandleAllConcat(cyc, p, raws, more);
    HandleAllEnds(cyc, p, raws);
  }

  lemma HandsNoMore(cyc: Cycle, p: Progress, raws: seq<RawMessage>, q: Progress, more: seq<RawMessage>, v: Verdict, declined: string)
    requires Hands(cyc, p, raws, q, v, declined) && v != Accept
    ensures Hands(cyc, p, raws + more, q, v, declined)
  {
    HandleAllConcat(cyc, p, raws, more);
  }

  // ------------------------------------------------------------------------------- Gmail

  /** The messages a download offers, from the k-th result on, while they are accepted. */
  function DrainOffered(o: Gmail.Options, s: Gmail.Session, k: nat): seq<RawMessage>
    requires k <= |s.answers|
    decreases |s.answers| - k
  {
    if k == |s.answers| then []
    else
      match s.answers[k]
      case Gone(_) => DrainOffered(o, s, k + 1)
      case Failed => []
      case Got(raw) => (if Gmail.Excluded(o, raw) then [] else [raw]) + DrainOffered(o, s, k + 1)
  }

  /** The ids a fetch sets out to download, and whether it gets that far. */
  predicate Downloads(s: Gmail.Session, st: State) {
    && (if st.historyId > 0 && s.historyWalk.Complete? then
          Gmail.Pending(Dedup(Gmail.HistoryIdsOf(s.history)), st.seen) != []
        else
          && (st.historyId == 0 || s.historyWalk.NotFound?) && s.profile.Some? && s.listingWalk.Complete?
          && Gmail.Pending(Dedup(Gmail.ListedIds(s.listing)), st.seen) != [])
    && !s.cancelled && !s.labelsFail
  }

  /** What a fetch offers, in order. */
  function GmailOffered(o: Gmail.Options, s: Gmail.Session, st: State): seq<RawMessage> {
    if Downloads(s, st) then DrainOffered(o, s, 0) else []
  }

  function GmailVerdict(end: Gmail.End): Verdict { if end.Declined? then end.verdict else Accept }

  function GmailDeclined(end: Gmail.End): string { if end.Declined? then end.id else "" }

  lemma {:induction false} DrainHands(o: Gmail.Options, s: Gmail.Session, k: nat, seen: seq<string>, cyc: Cycle, p: Progress)
    requires k <= |s.answers|
    ensures var d := Gmail.Drain(o, s, k, seen, cyc, p);
            Hands(cyc, p, DrainOffered(o, s, k), d.p, GmailVerdict(d.end), GmailDeclined(d.end))
    ensures var d := Gmail.Drain(o, s, k, seen, cyc, p); d.end.Declined? ==> d.end.verdict != Accept
    decreases |s.answers| - k
  {
    if k < |s.answers| {
      var answer := s.answers[k];
      if answer.Gone? || (answer.Got? && Gmail.Excluded(o, answer.raw)) {
        DrainHands(o, s, k + 1, seen, cyc, p);
        assert [] + DrainOffered(o, s, k + 1) == DrainOffered(o, s, k + 1);
      } else if answer.Got? {
        var raw := answer.raw;
        var (q, v) := Handle(cyc, p, raw);
        if v == Accept {
          DrainHands(o, s, k + 1, Marked(seen, raw.id), cyc, q);
          var d := Gmail.Drain(o, s, k + 1, Marked(seen, raw.id), cyc, q);
          HandsOne(cyc, p, raw, DrainOffered(o, s, k + 1), d.p, GmailVerdict(d.end), GmailDeclined(d.end));
        } else {
          HandsLast(cyc, p, raw, DrainOffered(o, s, k + 1));
        }
      }
    }
  }

  /** A Gmail fetch hands its callback exactly what it offers. */
  lemma GmailFetchHands(o: Gmail.Options, s: Gmail.Session, st: State, cyc: Cycle, p: Progress)
    ensures var f := Gmail.Fetch(o, s, st, cyc, p);
            Hands(cyc, p, GmailOffered(o, s, st), f.p, GmailVerdict(f.end), GmailDeclined(f.end))
            && (f.end.Declined? ==> f.end.verdict != Accept)
  {
    DrainHands(o, s, 0, st.seen, cyc, p);
  }

  // -------------------------------------------------------------------------------- IMAP

  /** The messages a reply offers, from the k-th on. */
  function ReadOffered(o: Imap.Options, mailbox: string, v: Imap.Visit, lastUid: nat, reply: seq<Imap.Wire>, k: nat, seen: seq<string>): seq<RawMessage>
    requires k <= |reply|
    decreases |reply| - k
  {
    if v.breakAt == Some(k) || k == |reply| then []
    else
      var w := reply[k];
      var raw := Imap.Raw(o, mailbox, v.validity, w);
      (if w.uid == 0 || w.uid <= lastUid || raw.id in seen then [] else [raw])
      + ReadOffered(o, mailbox, v, lastUid, reply, k + 1, seen)
  }

  /** How far a reply is read while everything is accepted, and whether the connection breaks. */
  function ReadEnd(v: Imap.Visit, lastUid: nat, reply: seq<Imap.Wire>, k: nat, highest: nat): (nat, bool)
    requires k <= |reply|
    decreases |reply| - k
  {
    if v.breakAt == Some(k) then (highest, true)
    else if k == |reply| then (highest, false)
    else
      var w := reply[k];
      ReadEnd(v, lastUid, reply, k + 1, if w.uid == 0 || w.uid <= lastUid then highest else Imap.Max(highest, w.uid))
  }

  function RangeAt(o: Imap.Options, mailbox: string, v: Imap.Visit, st: State): Imap.Range {
    Imap.UidRange(o, v, Imap.Resyncs(v, st, mailbox), Imap.StartUid(v, st, mailbox))
  }

  function VisitOffered(o: Imap.Options, mailbox: string, v: Imap.Visit, st: State): seq<RawMessage> {
    var range := RangeAt(o, mailbox, v, st);
    if v.examineFails || !range.Ask? then []
    else ReadOffered(o, mailbox, v, Imap.StartUid(v, st, mailbox), Imap.Reply(v, range), 0, st.seen)
  }

  /** The state a visit leaves if everything it offers is accepted; None if it does not get through. */
  function VisitLeaves(o: Imap.Options, mailbox: string, v: Imap.Visit, st: State): Option<State> {
    var range, lastUid := RangeAt(o, mailbox, v, st), Imap.StartUid(v, st, mailbox);
    if v.examineFails || range.SearchFailed? then None
    else
      var (highest, broken) := if range.Ask? then ReadEnd(v, lastUid, Imap.Reply(v, range), 0, lastUid) else (lastUid, false);
      if broken then None
      else Some(Imap.WritePair(st, mailbox, Dec(v.validity), if v.uidNext > 1 && v.uidNext - 1 > highest then v.uidNext - 1 else highest))
  }

  function ImapOfferedFrom(o: Imap.Options, i: nat, s: Imap.Session, st: State): seq<RawMessage>
    requires i <= |o.mailboxes|
    decreases |o.mailboxes| - i
  {
    if i == |o.mailboxes| then []
    else
      var next := VisitLeaves(o, o.mailboxes[i], s.visits(i), st);
      VisitOffered(o, o.mailboxes[i], s.visits(i), st) + if next.Some? then ImapOfferedFrom(o, i + 1, s, next.value) else []
  }

  /** What a fetch offers, over all its mailboxes. */
  function ImapOffered(o: Imap.Options, s: Imap.Session, st: State): seq<RawMessage> {
    if s.connects then ImapOfferedFrom(o, 0, s, st) else []
  }

  function ImapVerdict(end: Imap.End): Verdict { if end.Declined? then end.verdict else Accept }

  function ImapDeclined(o: Imap.Options, end: Imap.End): string { if end.Declined? then Imap.IdOf(o.account, end.ref) else "" }

  ghost predicate ReadsOn(d: Imap.Delivered, end: (nat, bool)) {
    !d.end.Declined? ==> d.highest == end.0 && d.end == if end.1 then Imap.Broken else Imap.Done
  }

  lemma {:induction false} ReadHands(
    o: Imap.Options, mailbox: string, v: Imap.Visit, lastUid: nat, reply: seq<Imap.Wire>, k: nat, highest: nat,
    seen: seq<string>, cyc: Cycle, p: Progress)
    requires k <= |reply|
    ensures var d := Imap.ReadFrom(o, mailbox, v, lastUid, reply, k, highest, seen, cyc, p);
            && Hands(cyc, p, ReadOffered(o, mailbox, v, lastUid, reply, k, seen), d.p, ImapVerdict(d.end), ImapDeclined(o, d.end))
            && (d.end.Declined? ==> d.end.verdict != Accept)
            && ReadsOn(d, ReadEnd(v, lastUid, reply, k, highest))
    decreases |reply| - k
  {
    if v.breakAt != Some(k) && k < |reply| {
      var w := reply[k];
      var raised, raw := Imap.Max(highest, w.uid), Imap.Raw(o, mailbox, v.validity, w);
      var rest := ReadOffered(o, mailbox, v, lastUid, reply, k + 1, seen);
      assert [] + rest == rest;
      if w.uid == 0 || w.uid <= lastUid {
        ReadHands(o, mailbox, v, lastUid, reply, k + 1, highest, seen, cyc, p);
      } else if raw.id in seen {
        ReadHands(o, mailbox, v, lastUid, reply, k + 1, raised, seen, cyc, p);
      } else {
        var (q, verdict) := Handle(cyc, p, raw);
        if verdict == Accept {
          ReadHands(o, mailbox, v, lastUid, reply, k + 1, raised, seen, cyc, q);
          var d := Imap.ReadFrom(o, mailbox, v, lastUid, reply, k + 1, raised, seen, cyc, q);
          HandsOne(cyc, p, raw, rest, d.p, ImapVerdict(d.end), ImapDeclined(o, d.end));
        } else {
          HandsLast(cyc, p, raw, rest);
        }
      }
    }
  }

  lemma VisitHands(o: Imap.Options, mailbox: string, v: Imap.Visit, st: State, cyc: Cycle, p: Progress)
    ensures var f := Imap.FetchMailbox(o, mailbox, v, st, cyc, p);
            && Hands(cyc, p, VisitOffered(o, mailbox, v, st), f.p, ImapVerdict(f.end), ImapDeclined(o, f.end))
            && (f.end.Declined? ==> f.end.verdict != Accept)
            && (!f.end.Declined? ==>
                  (f.end.Done? <==> VisitLeaves(o, mailbox, v, st).Some?) && (f.end.Done? ==> VisitLeaves(o, mailbox, v, st) == Some(f.st)))
  {
    var range, lastUid := RangeAt(o, mailbox, v, st), Imap.StartUid(v, st, mailbox);
    if !v.examineFails && range.Ask? {
      ReadHands(o, mailbox, v, lastUid, Imap.Reply(v, range), 0, lastUid, st.seen, cyc, p);
    }
  }

  lemma {:induction false} ImapFetchFromHands(o: Imap.Options, i: nat, s: Imap.Session, st: State, cyc: Cycle, p: Progress)
    requires i <= |o.mailboxes|
    ensures var f := Imap.FetchFrom(o, i, s, st, cyc, p);
            Hands(cyc, p, ImapOfferedFrom(o, i, s, st), f.p, ImapVerdict(f.end), ImapDeclined(o, f.end))
            && (f.end.Declined? ==> f.end.verdict != Accept)
    decreases |o.mailboxes| - i
  {
    if i < |o.mailboxes| {
      var mb, v := o.mailboxes[i], s.visits(i);
      VisitHands(o, mb, v, st, cyc, p);
      var f, raws := Imap.FetchMailbox(o, mb, v, st, cyc, p), VisitOffered(o, mb, v, st);
      if f.end.Done? {
        ImapFetchFromHands(o, i + 1, s, f.st, cyc, f.p);
        var g := Imap.FetchFrom(o, i + 1, s, f.st, cyc, f.p);
        HandsBoth(cyc, p, raws, f.p, ImapOfferedFrom(o, i + 1, s, f.st), g.p, ImapVerdict(g.end), ImapDeclined(o, g.end));
      } else if f.end.Declined? {
        var next := VisitLeaves(o, mb, v, st);
        HandsNoMore(cyc, p, raws, f.p, if next.Some? then ImapOfferedFrom(o, i + 1, s, next.value) else [], ImapVerdict(f.end), ImapDeclined(o, f.end));
      } else {
        assert raws + [] == raws;
      }
    }
  }

  /** An IMAP fetch hands its callback exactly what it offers, over all its mailboxes. */
  lemma ImapFetchHands(o: Imap.Options, s: Imap.Session, st: State, cyc: Cycle, p: Progress)
    ensures var f := Imap.Fetch(o, s, st, cyc, p);
            Hands(cyc, p, ImapOffered(o, s, st), f.p, ImapVerdict(f.end), ImapDeclined(o, f.end))
            && (f.end.Declined? ==> f.end.verdict != Accept)
  {
    if s.connects {
      ImapFetchFromHands(o, 0, s, st, cyc, p);
    }
  }
}
