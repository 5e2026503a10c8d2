/** What one IMAP fetch does to a cursor: everything at or below it is accounted for,
    except a message a graceful stop declined. */
module ImapTheorems {
  import opened Text
  import opened Mail
  import opened Sync
  import opened ImapKeys
  import opened Pipeline
  import opened PipelineTheorems
  import opened Imap

  // ------------------------------------------------------------------- the server

  /** A mailbox as the server holds it: its messages in ascending uid order, all below UIDNEXT. */
  datatype Box = Box(validity: nat, next: nat, live: seq<Wire>)

  ghost predicate Ascending(ws: seq<Wire>) { forall i, j | 0 <= i < j < |ws| :: ws[i].uid < ws[j].uid }

  ghost predicate ValidBox(b: Box) {
    1 <= b.next < UID_LIMIT && Ascending(b.live) && forall w | w in b.live :: 1 <= w.uid < b.next
  }

  /** One mailbox from one moment to a later one (section 2.3.1.1 of RFC 9051): mail arrives at
      or above UIDNEXT and is expunged, or every uid is void and the validity value is greater. */
  ghost predicate Evolves(b: Box, c: Box) {
    && ValidBox(b) && ValidBox(c)
    && (c.validity > b.validity
        || (c.validity == b.validity && b.next <= c.next && forall w | w in c.live && w.uid < b.next :: w in b.live))
  }

  /** A visit shows the mailbox truthfully: `b` at EXAMINE, `c` when SEARCH and FETCH run. */
  ghost predicate Shows(v: Visit, b: Box, c: Box) {
    && Evolves(b, c) && c.validity == b.validity == v.validity
    && (v.uidNext == 0 || v.uidNext == b.next) && v.count == |b.live| && v.live == c.live
  }

  // -------------------------------------------------------------- requests and replies

  lemma {:induction false} KeepFilters(live: seq<Wire>, p: Wire -> bool)
    requires Ascending(live)
    ensures var r := Keep(live, p); Ascending(r) && forall w :: w in r <==> w in live && p(w)
  {
    if live != [] {
      assert Ascending(live[1..]);
      KeepFilters(live[1..], p);
      var rest := Keep(live[1..], p);
      assert forall w :: w in live <==> w == live[0] || w in live[1..];
      forall w | w in rest ensures live[0].uid < w.uid {
        assert w in live[1..];
      }
    }
  }

  lemma AnswerFilters(live: seq<Wire>, ask: NumSet)
    requires Ascending(live)
    ensures var r := Answer(live, ask);
            && Ascending(r)
            && (forall w | w in r :: w in live)
            && (ask.From? && ask.start > 0 ==> forall w | w in live && w.uid >= ask.start :: w in r)
            && (ask.Uids? ==> forall w | w in live && w.uid in ask.uids :: w in r)
  {
    match ask
    case Uids(uids) => KeepFilters(live, (w: Wire) => w.uid in uids);
    case From(start) =>
      if start > 0 {
        KeepFilters(live, (w: Wire) => w.uid >= start);
      }
  }

  lemma AnswerHas(live: seq<Wire>, ask: NumSet, w: Wire)
    requires Ascending(live) && w in live
    requires if ask.From? then 0 < ask.start <= w.uid else w.uid in ask.uids
    ensures w in Answer(live, ask)
  {
    AnswerFilters(live, ask);
  }

  // ------------------------------------------------------------------- one reply read

  function RefOf(mailbox: string, v: Visit, w: Wire): Ref { Ref(mailbox, v.validity, w.uid) }

  function WireId(o: Options, mailbox: string, v: Visit, w: Wire): string { IdOf(o.account, RefOf(mailbox, v, w)) }

  /** A message the loop has passed and did not skip as old. */
  ghost predicate Read(w: Wire, lastUid: nat, d: Delivered) { lastUid < w.uid <= d.highest }

  ghost predicate Turned(mailbox: string, v: Visit, w: Wire, d: Delivered) {
    d.end.Declined? && d.end.ref == RefOf(mailbox, v, w)
  }

  /** A declined message is the last one passed. */
  ghost predicate EndsWell(mailbox: string, v: Visit, lastUid: nat, reply: seq<Wire>, k: nat, d: Delivered) {
    d.end.Declined? ==>
      && d.end.verdict != Accept && d.highest > lastUid
      && exists i | k <= i < |reply| :: reply[i].uid == d.highest && d.end.ref == RefOf(mailbox, v, reply[i])
  }

  ghost predicate NewFate(o: Options, mailbox: string, v: Visit, lastUid: nat, reply: seq<Wire>, k: nat, d: Delivered, id: string) {
    exists i | k <= i < |reply| ::
      id == WireId(o, mailbox, v, reply[i]) && Read(reply[i], lastUid, d) && !Turned(mailbox, v, reply[i], d)
  }

  /** What a read from the k-th message did, `accepted` being the ids accepted before it: every
      message it passed is seen already, accepted, or the one declined; and only such messages are
      accepted. */
  ghost predicate ReadWell(
    o: Options, mailbox: string, v: Visit, lastUid: nat, reply: seq<Wire>, k: nat, highest: nat,
    seen: seq<string>, accepted: set<string>, d: Delivered, bound: nat)
  {
    && highest <= d.highest < bound
    && accepted <= d.p.fates.Keys
    && EndsWell(mailbox, v, lastUid, reply, k, d)
    && (forall i | k <= i < |reply| && Read(reply[i], lastUid, d) :: IsSettled(o, mailbox, v, reply[i], seen, d))
    && (d.end.Done? ==> forall i | k <= i < |reply| :: reply[i].uid <= d.highest)
    && (forall id | id in d.p.fates && id !in accepted :: NewFate(o, mailbox, v, lastUid, reply, k, d, id))
  }

  ghost predicate IsSettled(o: Options, mailbox: string, v: Visit, w: Wire, seen: seq<string>, d: Delivered) {
    WireId(o, mailbox, v, w) in d.p.fates || WireId(o, mailbox, v, w) in seen || Turned(mailbox, v, w, d)
  }

  lemma NewFateEarlier(o: Options, mailbox: string, v: Visit, lastUid: nat, reply: seq<Wire>, k: nat, d: Delivered, id: string)
    requires NewFate(o, mailbox, v, lastUid, reply, k + 1, d, id)
    ensures NewFate(o, mailbox, v, lastUid, reply, k, d, id)
  {
  }

  /** One more message before a read: old, seen, or accepted. */
  lemma ReadStep(
    o: Options, mailbox: string, v: Visit, lastUid: nat, reply: seq<Wire>, k: nat, highest: nat, raised: nat,
    seen: seq<string>, before: set<string>, after: set<string>, d: Delivered, bound: nat)
    requires k < |reply| && Ascending(reply) && highest <= raised
    requires ReadWell(o, mailbox, v, lastUid, reply, k + 1, raised, seen, after, d, bound)
    requires reply[k].uid <= lastUid || (lastUid < reply[k].uid == raised)
    requires after == before || after == before + {WireId(o, mailbox, v, reply[k])}
    requires reply[k].uid <= lastUid ==> after == before && highest == raised && lastUid <= raised
    requires reply[k].uid > lastUid ==> WireId(o, mailbox, v, reply[k]) in seen || WireId(o, mailbox, v, reply[k]) in after
    ensures ReadWell(o, mailbox, v, lastUid, reply, k, highest, seen, before, d, bound)
  {
    var id := WireId(o, mailbox, v, reply[k]);
    assert EndsWell(mailbox, v, lastUid, reply, k + 1, d);
    assert !Turned(mailbox, v, reply[k], d);
    forall x | x in d.p.fates && x !in before ensures NewFate(o, mailbox, v, lastUid, reply, k, d, x) {
      if x in after {
        assert x == id && Read(reply[k], lastUid, d);
      } else {
        NewFateEarlier(o, mailbox, v, lastUid, reply, k, d, x);
      }
    }
  }

  lemma {:induction false} ReadSettles(
    o: Options, mailbox: string, v: Visit, lastUid: nat, reply: seq<Wire>, k: nat, highest: nat,
    seen: seq<string>, cyc: Cycle, p: Progress, bound: nat)
    requires k <= |reply| && Ascending(reply) && lastUid <= highest < bound
    requires forall i | k <= i < |reply| :: (reply[i].uid <= lastUid || highest < reply[i].uid) && reply[i].uid < bound
    ensures ReadWell(o, mailbox, v, lastUid, reply, k, highest, seen, p.fates.Keys,
                     ReadFrom(o, mailbox, v, lastUid, reply, k, highest, seen, cyc, p), bound)
    decreases |reply| - k
  {
    if v.breakAt != Some(k) && k < |reply| {
      var w := reply[k];
      var d := ReadFrom(o, mailbox, v, lastUid, reply, k, highest, seen, cyc, p);
      if w.uid == 0 || w.uid <= lastUid {
        ReadSettles(o, mailbox, v, lastUid, reply, k + 1, highest, seen, cyc, p, bound);
        ReadStep(o, mailbox, v, lastUid, reply, k, highest, highest, seen, p.fates.Keys, p.fates.Keys, d, bound);
      } else {
        var raw := Raw(o, mailbox, v.validity, w);
        if raw.id in seen {
          ReadSettles(o, mailbox, v, lastUid, reply, k + 1, w.uid, seen, cyc, p, bound);
          ReadStep(o, mailbox, v, lastUid, reply, k, highest, w.uid, seen, p.fates.Keys, p.fates.Keys, d, bound);
        } else {
          HandleSettles(cyc, p, raw);
          var (q, verdict) := Handle(cyc, p, raw);
          if verdict == Accept {
            ReadSettles(o, mailbox, v, lastUid, reply, k + 1, w.uid, seen, cyc, q, bound);
            ReadStep(o, mailbox, v, lastUid, reply, k, highest, w.uid, seen, p.fates.Keys, q.fates.Keys, d, bound);
          } else {
            assert d == Delivered(q, w.uid, Declined(verdict, RefOf(mailbox, v, w)));
          }
        }
      }
    }
  }

  /** What handling a message settles. */
  lemma HandleSettles(cyc: Cycle, p: Progress, raw: RawMessage)
    ensures var (q, v) := Handle(cyc, p, raw); q.fates.Keys == if v == Accept then p.fates.Keys + {raw.id} else p.fates.Keys
  {
    HandleRecords(cyc, p, raw);
  }

  // ---------------------------------------------------------------------- the cursor

  /** The cursor has passed this message: its uid is at or below the stored one, or its
      validity value is gone for good. */
  ghost predicate Passed(boxes: map<string, Box>, st: State, r: Ref) {
    && r.mailbox in boxes
    && (r.validity < boxes[r.mailbox].validity
        || (r.validity == boxes[r.mailbox].validity
            && StoredValidity(st, r.mailbox) == Dec(r.validity) && r.uid <= StoredUid(st, r.mailbox)))
  }

  ghost predicate PassedId(account: string, boxes: map<string, Box>, st: State, id: string) {
    exists r :: id == IdOf(account, r) && Passed(boxes, st, r)
  }

  /** The stored validity is one the mailbox has had. */
  ghost predicate KnownValidity(stored: string, b: Box) { stored == "" || exists n: nat :: n <= b.validity && stored == Dec(n) }

  /** Nothing at or below a mailbox's cursor is unaccounted for. */
  ghost predicate CursorSound(account: string, st: State, mailbox: string, b: Box, done: set<string>, missed: set<Ref>) {
    && KnownValidity(StoredValidity(st, mailbox), b)
    && (StoredValidity(st, mailbox) == Dec(b.validity) ==>
          && StoredUid(st, mailbox) < b.next
          && forall w | w in b.live && w.uid <= StoredUid(st, mailbox) ::
               Accounted(account, Ref(mailbox, b.validity, w.uid), done, missed))
  }

  ghost predicate Accounted(account: string, r: Ref, done: set<string>, missed: set<Ref>) { IdOf(account, r) in done || r in missed }

  /** The ledger of one account: `done` are the ids accepted or outside the lookback, `missed`
      the messages declined with the cursor raised past them. */
  ghost predicate Ledger(account: string, boxes: map<string, Box>, st: State, done: set<string>, missed: set<Ref>) {
    && (forall mb | mb in boxes :: ValidBox(boxes[mb]) && CursorSound(account, st, mb, boxes[mb], done, missed))
    && (forall id | id in done :: PassedId(account, boxes, st, id))
    && (forall r | r in missed :: Passed(boxes, st, r) && IdOf(account, r) !in done)
    && (forall id | id in st.seen :: id in done)
  }

  lemma IdOfInjective(account: string, r: Ref, s: Ref)
    requires IdOf(account, r) == IdOf(account, s)
    ensures r == s
  {
    MessageIDInjective(account, r.mailbox, r.validity, r.uid, s.mailbox, s.validity, s.uid);
  }

  lemma PassedStays(boxes: map<string, Box>, later: map<string, Box>, st: State, r: Ref)
    requires Passed(boxes, st, r)
    requires boxes.Keys <= later.Keys && forall mb | mb in boxes :: Evolves(boxes[mb], later[mb])
    ensures Passed(later, st, r)
  {
  }

  lemma SoundStays(account: string, st: State, mailbox: string, b: Box, c: Box, done: set<string>, missed: set<Ref>)
    requires CursorSound(account, st, mailbox, b, done, missed) && Evolves(b, c)
    ensures CursorSound(account, st, mailbox, c, done, missed)
  {
    var stored := StoredValidity(st, mailbox);
    if stored != "" {
      var n: nat :| n <= b.validity && stored == Dec(n);
      if stored == Dec(c.validity) {
        DecInjective(n, c.validity);
      }
    }
  }

  ghost predicate AllEvolve(boxes: map<string, Box>, later: map<string, Box>) {
    boxes.Keys == later.Keys && forall mb | mb in boxes :: Evolves(boxes[mb], later[mb])
  }

  /** Whatever the server does between visits, the ledger stands. */
  lemma LedgerStays(account: string, boxes: map<string, Box>, later: map<string, Box>, st: State, done: set<string>, missed: set<Ref>)
    requires Ledger(account, boxes, st, done, missed) && AllEvolve(boxes, later)
    ensures Ledger(account, later, st, done, missed)
  {
    forall mb | mb in later ensures CursorSound(account, st, mb, later[mb], done, missed) {
      SoundStays(account, st, mb, boxes[mb], later[mb], done, missed);
    }
    forall id | id in done ensures PassedId(account, later, st, id) {
      var r :| id == IdOf(account, r) && Passed(boxes, st, r);
      PassedStays(boxes, later, st, r);
    }
    forall r | r in missed ensures Passed(later, st, r) {
      PassedStays(boxes, later, st, r);
    }
  }

  // ------------------------------------------------------------------- one visit

  /** A resync leaves mail older than the lookback where it is. */
  ghost predicate LeftOut(o: Options, mailbox: string, v: Visit, st: State, w: Wire) {
    Resyncs(v, st, mailbox) && o.lookback > 0 && !Since(w, v.now - o.lookback)
  }

  function RangeOf(o: Options, mailbox: string, v: Visit, st: State): Range {
    UidRange(o, v, Resyncs(v, st, mailbox), StartUid(v, st, mailbox))
  }

  /** A message above the cursor is asked for, unless it is left out or arrived after EXAMINE. */
  lemma RequestCovers(o: Options, mailbox: string, v: Visit, b: Box, c: Box, st: State, w: Wire)
    requires Shows(v, b, c) && StartUid(v, st, mailbox) < b.next
    requires w in c.live && StartUid(v, st, mailbox) < w.uid && !LeftOut(o, mailbox, v, st, w)
    ensures RangeOf(o, mailbox, v, st).Nothing? ==> w.uid >= b.next
    ensures RangeOf(o, mailbox, v, st).Ask? ==> w in Reply(v, RangeOf(o, mailbox, v, st))
  {
    var range, next := RangeOf(o, mailbox, v, st), (StartUid(v, st, mailbox) + 1) % UID_LIMIT;
    assert next == StartUid(v, st, mailbox) + 1;
    if range.Nothing? {
      assert Since(w, v.now - o.lookback) ==> w.uid in SearchSince(v.live, v.now - o.lookback);
      assert w.uid < b.next ==> w in b.live;
    } else if range.Ask? {
      AskCovers(o, v, Resyncs(v, st, mailbox), StartUid(v, st, mailbox), w);
    }
  }

  lemma AskCovers(o: Options, v: Visit, resync: bool, lastUid: nat, w: Wire)
    requires Ascending(v.live) && w in v.live && lastUid < w.uid && lastUid + 1 < UID_LIMIT && (resync ==> lastUid == 0)
    requires resync && o.lookback > 0 ==> Since(w, v.now - o.lookback)
    requires UidRange(o, v, resync, lastUid).Ask?
    ensures w in Reply(v, UidRange(o, v, resync, lastUid))
  {
    assert (lastUid + 1) % UID_LIMIT == lastUid + 1;
    assert resync && o.lookback > 0 ==> w.uid in SearchSince(v.live, v.now - o.lookback);
    AnswerHas(v.live, UidRange(o, v, resync, lastUid).ask, w);
  }

  /** What one visit passes over is settled, seen, declined or left out; what it accepts or
      declines is mail of this mailbox above the old cursor and not left out. */
  ghost predicate VisitSettles(o: Options, mailbox: string, v: Visit, c: Box, st: State, p: Progress, d: Delivered) {
    var lastUid, reached := StartUid(v, st, mailbox), Reached(v, d);
    && lastUid <= d.highest <= reached < c.next
    && p.fates.Keys <= d.p.fates.Keys
    && (forall w | w in c.live && lastUid < w.uid <= reached :: Settles(o, mailbox, v, st, d, w))
    && (forall id | id in d.p.fates && id !in p.fates :: Accepts(o, mailbox, v, c, st, d, id))
    && (d.end.Declined? ==> exists w | w in c.live :: Declines(o, mailbox, v, st, d, w))
  }

  ghost predicate Settles(o: Options, mailbox: string, v: Visit, st: State, d: Delivered, w: Wire) {
    WireId(o, mailbox, v, w) in d.p.fates || WireId(o, mailbox, v, w) in st.seen
    || Turned(mailbox, v, w, d) || LeftOut(o, mailbox, v, st, w)
  }

  ghost predicate Accepts(o: Options, mailbox: string, v: Visit, c: Box, st: State, d: Delivered, id: string) {
    exists w | w in c.live ::
      id == WireId(o, mailbox, v, w) && Read(w, StartUid(v, st, mailbox), d) && !Turned(mailbox, v, w, d)
  }

  ghost predicate Declines(o: Options, mailbox: string, v: Visit, st: State, d: Delivered, w: Wire) {
    Turned(mailbox, v, w, d) && StartUid(v, st, mailbox) < w.uid == d.highest && !LeftOut(o, mailbox, v, st, w)
  }

  lemma NothingSettles(o: Options, mailbox: string, v: Visit, b: Box, c: Box, st: State, cyc: Cycle, p: Progress)
    requires Shows(v, b, c) && StartUid(v, st, mailbox) < b.next && RangeOf(o, mailbox, v, st).Nothing?
    ensures VisitSettles(o, mailbox, v, c, st, p, Loop(o, mailbox, v, st, RangeOf(o, mailbox, v, st), cyc, p))
  {
    var d := Loop(o, mailbox, v, st, RangeOf(o, mailbox, v, st), cyc, p);
    forall w | w in c.live && StartUid(v, st, mailbox) < w.uid <= Reached(v, d) ensures Settles(o, mailbox, v, st, d, w) {
      if !LeftOut(o, mailbox, v, st, w) {
        RequestCovers(o, mailbox, v, b, c, st, w);
      }
    }
  }

  /** Nothing a reply holds above the cursor was left out of the request. */
  lemma ReplyIsEligible(o: Options, mailbox: string, v: Visit, c: Box, st: State, w: Wire)
    requires v.live == c.live && Ascending(c.live) && (forall u, w' | u in c.live && w' in c.live && u.uid == w'.uid :: u == w')
    requires RangeOf(o, mailbox, v, st).Ask? && w in Reply(v, RangeOf(o, mailbox, v, st))
    ensures w in c.live && !LeftOut(o, mailbox, v, st, w)
  {
    var range := RangeOf(o, mailbox, v, st);
    AnswerFilters(c.live, range.ask);
    if Resyncs(v, st, mailbox) && o.lookback > 0 {
      KeepFilters(c.live, (w: Wire) => w.uid in range.ask.uids);
    }
  }

  lemma UidsIdentify(b: Box)
    requires ValidBox(b)
    ensures forall u, w | u in b.live && w in b.live && u.uid == w.uid :: u == w
  {
    forall u, w | u in b.live && w in b.live && u.uid == w.uid ensures u == w {
      var i, j :| 0 <= i < |b.live| && 0 <= j < |b.live| && b.live[i] == u && b.live[j] == w;
    }
  }

  lemma AskSettles(o: Options, mailbox: string, v: Visit, b: Box, c: Box, st: State, cyc: Cycle, p: Progress)
    requires Shows(v, b, c) && StartUid(v, st, mailbox) < b.next && RangeOf(o, mailbox, v, st).Ask?
    ensures VisitSettles(o, mailbox, v, c, st, p, Loop(o, mailbox, v, st, RangeOf(o, mailbox, v, st), cyc, p))
  {
    var range, lastUid := RangeOf(o, mailbox, v, st), StartUid(v, st, mailbox);
    var reply := Reply(v, range);
    var d := Loop(o, mailbox, v, st, range, cyc, p);
    UidsIdentify(c);
    AnswerFilters(c.live, range.ask);
    forall w | w in reply ensures w in c.live && !LeftOut(o, mailbox, v, st, w) {
      ReplyIsEligible(o, mailbox, v, c, st, w);
    }
    ReadSettles(o, mailbox, v, lastUid, reply, 0, lastUid, st.seen, cyc, p, c.next);
    forall w | w in c.live && lastUid < w.uid <= Reached(v, d) ensures Settles(o, mailbox, v, st, d, w) {
      if !LeftOut(o, mailbox, v, st, w) {
        RequestCovers(o, mailbox, v, b, c, st, w);
        var i :| 0 <= i < |reply| && reply[i] == w;
        assert Read(reply[i], lastUid, d);
      }
    }
    forall id | id in d.p.fates && id !in p.fates ensures Accepts(o, mailbox, v, c, st, d, id) {
      assert NewFate(o, mailbox, v, lastUid, reply, 0, d, id);
    }
    if d.end.Declined? {
      assert EndsWell(mailbox, v, lastUid, reply, 0, d);
      var i :| 0 <= i < |reply| && reply[i].uid == d.highest && d.end.ref == RefOf(mailbox, v, reply[i]);
      assert Declines(o, mailbox, v, st, d, reply[i]);
    }
  }

  // --------------------------------------------------------------- the cursor written

  /** The ids a resync's lookback leaves out while the cursor is raised past them. */
  function OutsideIds(o: Options, mailbox: string, v: Visit, st: State, upTo: nat): set<string> {
    if Resyncs(v, st, mailbox) && o.lookback > 0
    then set w | w in v.live && w.uid <= upTo && !Since(w, v.now - o.lookback) :: WireId(o, mailbox, v, w)
    else {}
  }

  /** The ids one visit leaves behind its cursor without offering them. */
  function Outside(o: Options, mailbox: string, v: Visit, st: State, cyc: Cycle, p: Progress): set<string> {
    var range := RangeOf(o, mailbox, v, st);
    if v.examineFails || range.SearchFailed? then {}
    else OutsideIds(o, mailbox, v, st, Reached(v, Loop(o, mailbox, v, st, range, cyc, p)))
  }

  function DeclinedRefs(end: End): set<Ref> { if end.Declined? then {end.ref} else {} }

  /** Writing one mailbox's pair leaves every other mailbox's cursor alone. */
  lemma PairIsLocal(st: State, mailbox: string, validity: string, uid: nat, other: string)
    requires other != mailbox
    ensures var next := WritePair(st, mailbox, validity, uid);
            StoredValidity(next, other) == StoredValidity(st, other) && StoredUid(next, other) == StoredUid(st, other)
  {
    FieldsHaveNoDot();
    forall f, g | f in {UIDVALIDITY, LAST_UID} && g in {UIDVALIDITY, LAST_UID}
      ensures ExtraKey(mailbox, f) != ExtraKey(other, g)
    {
      if ExtraKey(mailbox, f) == ExtraKey(other, g) {
        ExtraKeyInjective(mailbox, f, other, g);
      }
    }
  }

  /** The pair written is the pair read back. */
  lemma PairReadsBack(st: State, mailbox: string, validity: nat, uid: nat)
    requires 0 < uid < UID_LIMIT
    ensures var next := WritePair(st, mailbox, Dec(validity), uid);
            StoredValidity(next, mailbox) == Dec(validity) && StoredUid(next, mailbox) == uid
  {
    FieldsHaveNoDot();
    if ExtraKey(mailbox, UIDVALIDITY) == ExtraKey(mailbox, LAST_UID) {
      ExtraKeyInjective(mailbox, UIDVALIDITY, mailbox, LAST_UID);
    }
    ParseUndoesFormat(uid);
  }

  /** A visit's effect on its own mailbox: the cursor only moves forward within a validity, and
      ends where the delivery did. */
  lemma CursorAfter(o: Options, mailbox: string, v: Visit, c: Box, st: State, d: Delivered)
    requires v.validity == c.validity && c.next <= UID_LIMIT
    requires StartUid(v, st, mailbox) <= Reached(v, d) < c.next
    ensures var next := WritePair(st, mailbox, Dec(v.validity), Reached(v, d));
            && next.seen == st.seen
            && (Reached(v, d) > 0 ==> StoredValidity(next, mailbox) == Dec(v.validity) && StoredUid(next, mailbox) == Reached(v, d))
            && (Reached(v, d) == 0 ==> next == st)
  {
    if Reached(v, d) > 0 {
      PairReadsBack(st, mailbox, v.validity, Reached(v, d));
    }
  }

  /** The surroundings of one finished visit: `d` is what the delivery did, `next` the state written. */
  ghost predicate Visited(o: Options, mailbox: string, v: Visit, boxes: map<string, Box>, c: Box, st: State,
                          p: Progress, d: Delivered, next: State) {
    && mailbox in boxes && Shows(v, boxes[mailbox], c)
    && VisitSettles(o, mailbox, v, c, st, p, d)
    && next == WritePair(st, mailbox, Dec(v.validity), Reached(v, d))
  }

  lemma PassedKept(o: Options, mailbox: string, v: Visit, boxes: map<string, Box>, c: Box, st: State,
                   p: Progress, d: Delivered, next: State, r: Ref)
    requires Visited(o, mailbox, v, boxes, c, st, p, d, next) && Passed(boxes, st, r)
    ensures Passed(boxes[mailbox := c], next, r)
  {
    CursorAfter(o, mailbox, v, c, st, d);
    if r.mailbox != mailbox {
      PairIsLocal(st, mailbox, Dec(v.validity), Reached(v, d), r.mailbox);
    }
  }

  lemma AboveIsNotPassed(o: Options, mailbox: string, v: Visit, boxes: map<string, Box>, st: State, w: Wire)
    requires mailbox in boxes && boxes[mailbox].validity == v.validity
    requires StartUid(v, st, mailbox) < w.uid || Resyncs(v, st, mailbox)
    ensures !Passed(boxes, st, RefOf(mailbox, v, w))
    ensures !PassedId(o.account, boxes, st, WireId(o, mailbox, v, w))
  {
    if r: Ref :| WireId(o, mailbox, v, w) == IdOf(o.account, r) && Passed(boxes, st, r) {
      IdOfInjective(o.account, RefOf(mailbox, v, w), r);
    }
  }

  lemma CursorStaysSound(o: Options, mailbox: string, v: Visit, boxes: map<string, Box>, c: Box, st: State,
                         p: Progress, d: Delivered, next: State, done: set<string>, missed: set<Ref>,
                         done': set<string>, missed': set<Ref>)
    requires Visited(o, mailbox, v, boxes, c, st, p, d, next) && Ledger(o.account, boxes, st, done, missed)
    requires done <= done' && missed <= missed' && d.p.fates.Keys <= done'
    requires OutsideIds(o, mailbox, v, st, Reached(v, d)) <= done' && DeclinedRefs(d.end) <= missed'
    ensures CursorSound(o.account, next, mailbox, c, done', missed')
  {
    CursorAfter(o, mailbox, v, c, st, d);
    var b := boxes[mailbox];
    forall w | w in c.live && w.uid <= Reached(v, d) ensures Accounted(o.account, Ref(mailbox, c.validity, w.uid), done', missed') {
      if w.uid <= StartUid(v, st, mailbox) {
        assert w in b.live && Accounted(o.account, Ref(mailbox, b.validity, w.uid), done, missed);
      } else {
        assert Settles(o, mailbox, v, st, d, w);
        if LeftOut(o, mailbox, v, st, w) {
          assert WireId(o, mailbox, v, w) in OutsideIds(o, mailbox, v, st, Reached(v, d));
        }
      }
    }
  }

  lemma NewIdsAreFresh(o: Options, mailbox: string, v: Visit, boxes: map<string, Box>, c: Box, st: State,
                       p: Progress, d: Delivered, next: State, id: string)
    requires Visited(o, mailbox, v, boxes, c, st, p, d, next)
    requires (id in d.p.fates && id !in p.fates) || id in OutsideIds(o, mailbox, v, st, Reached(v, d))
    ensures PassedId(o.account, boxes[mailbox := c], next, id) && !PassedId(o.account, boxes, st, id)
    ensures d.end.Declined? ==> id != IdOf(o.account, d.end.ref)
  {
    CursorAfter(o, mailbox, v, c, st, d);
    UidsIdentify(c);
    var w: Wire;
    if id in d.p.fates && id !in p.fates {
      assert Accepts(o, mailbox, v, c, st, d, id);
      w :| w in c.live && id == WireId(o, mailbox, v, w) && Read(w, StartUid(v, st, mailbox), d) && !Turned(mailbox, v, w, d);
    } else {
      w :| w in c.live && w.uid <= Reached(v, d) && id == WireId(o, mailbox, v, w) && LeftOut(o, mailbox, v, st, w);
    }
    assert Passed(boxes[mailbox := c], next, RefOf(mailbox, v, w));
    AboveIsNotPassed(o, mailbox, v, boxes, st, w);
    if d.end.Declined? && id == IdOf(o.account, d.end.ref) {
      var u :| u in c.live && Declines(o, mailbox, v, st, d, u);
      IdOfInjective(o.account, RefOf(mailbox, v, w), RefOf(mailbox, v, u));
    }
  }

  lemma DeclinedIsFresh(o: Options, mailbox: string, v: Visit, boxes: map<string, Box>, c: Box, st: State,
                        p: Progress, d: Delivered, next: State)
    requires Visited(o, mailbox, v, boxes, c, st, p, d, next) && d.end.Declined?
    ensures Passed(boxes[mailbox := c], next, d.end.ref) && !PassedId(o.account, boxes, st, IdOf(o.account, d.end.ref))
  {
    CursorAfter(o, mailbox, v, c, st, d);
    var u :| u in c.live && Declines(o, mailbox, v, st, d, u);
    AboveIsNotPassed(o, mailbox, v, boxes, st, u);
  }

  lemma DoneStaysBehind(o: Options, mailbox: string, v: Visit, boxes: map<string, Box>, c: Box, st: State,
                        p: Progress, d: Delivered, next: State, done: set<string>)
    requires Visited(o, mailbox, v, boxes, c, st, p, d, next) && p.fates.Keys <= done
    requires forall id | id in done :: PassedId(o.account, boxes, st, id)
    ensures forall id | id in done + d.p.fates.Keys + OutsideIds(o, mailbox, v, st, Reached(v, d)) ::
              PassedId(o.account, boxes[mailbox := c], next, id)
  {
    forall id | id in done + d.p.fates.Keys + OutsideIds(o, mailbox, v, st, Reached(v, d))
      ensures PassedId(o.account, boxes[mailbox := c], next, id)
    {
      if id in done {
        var r :| id == IdOf(o.account, r) && Passed(boxes, st, r);
        PassedKept(o, mailbox, v, boxes, c, st, p, d, next, r);
      } else {
        NewIdsAreFresh(o, mailbox, v, boxes, c, st, p, d, next, id);
      }
    }
  }

  lemma MissedStaysMissed(o: Options, mailbox: string, v: Visit, boxes: map<string, Box>, c: Box, st: State,
                          p: Progress, d: Delivered, next: State, done: set<string>, missed: set<Ref>)
    requires Visited(o, mailbox, v, boxes, c, st, p, d, next) && p.fates.Keys <= done
    requires forall id | id in done :: PassedId(o.account, boxes, st, id)
    requires forall r | r in missed :: Passed(boxes, st, r) && IdOf(o.account, r) !in done
    ensures forall r | r in missed + DeclinedRefs(d.end) ::
              && Passed(boxes[mailbox := c], next, r)
              && IdOf(o.account, r) !in done + d.p.fates.Keys + OutsideIds(o, mailbox, v, st, Reached(v, d))
  {
    var added := d.p.fates.Keys + OutsideIds(o, mailbox, v, st, Reached(v, d));
    forall r | r in missed + DeclinedRefs(d.end)
      ensures Passed(boxes[mailbox := c], next, r) && IdOf(o.account, r) !in done && IdOf(o.account, r) !in added
    {
      if r in missed {
        PassedKept(o, mailbox, v, boxes, c, st, p, d, next, r);
        assert PassedId(o.account, boxes, st, IdOf(o.account, r));
      } else {
        DeclinedIsFresh(o, mailbox, v, boxes, c, st, p, d, next);
      }
      if IdOf(o.account, r) in added {
        NewIdsAreFresh(o, mailbox, v, boxes, c, st, p, d, next, IdOf(o.account, r));
      }
    }
  }

  lemma OtherCursorsStaySound(
    o: Options, mailbox: string, v: Visit, boxes: map<string, Box>, c: Box, st: State,
    p: Progress, d: Delivered, next: State, done: set<string>, missed: set<Ref>, mb: string)
    requires Visited(o, mailbox, v, boxes, c, st, p, d, next) && Ledger(o.account, boxes, st, done, missed)
    requires mb in boxes && mb != mailbox
    ensures CursorSound(o.account, next, mb, boxes[mb],
                        done + d.p.fates.Keys + OutsideIds(o, mailbox, v, st, Reached(v, d)), missed + DeclinedRefs(d.end))
  {
    PairIsLocal(st, mailbox, Dec(v.validity), Reached(v, d), mb);
    assert CursorSound(o.account, st, mb, boxes[mb], done, missed);
  }

  lemma FinishedVisitKeepsLedger(
    o: Options, mailbox: string, v: Visit, boxes: map<string, Box>, c: Box, st: State,
    p: Progress, d: Delivered, next: State, done: set<string>, missed: set<Ref>)
    requires Visited(o, mailbox, v, boxes, c, st, p, d, next) && Ledger(o.account, boxes, st, done, missed) && p.fates.Keys <= done
    ensures Ledger(o.account, boxes[mailbox := c], next,
                   done + d.p.fates.Keys + OutsideIds(o, mailbox, v, st, Reached(v, d)), missed + DeclinedRefs(d.end))
  {
    var out := OutsideIds(o, mailbox, v, st, Reached(v, d));
    var done', missed', boxes' := done + d.p.fates.Keys + out, missed + DeclinedRefs(d.end), boxes[mailbox := c];
    forall mb | mb in boxes' ensures CursorSound(o.account, next, mb, boxes'[mb], done', missed') {
      if mb == mailbox {
        CursorStaysSound(o, mailbox, v, boxes, c, st, p, d, next, done, missed, done', missed');
      } else {
        OtherCursorsStaySound(o, mailbox, v, boxes, c, st, p, d, next, done, missed, mb);
      }
    }
    DoneStaysBehind(o, mailbox, v, boxes, c, st, p, d, next, done);
    MissedStaysMissed(o, mailbox, v, boxes, c, st, p, d, next, done, missed);
    CursorAfter(o, mailbox, v, c, st, d);
  }

  /** One visit to one mailbox keeps the ledger: what its cursor newly passes is accepted, left
      out by the lookback, or the message that was declined. */
  lemma VisitKeepsLedger(o: Options, mailbox: string, v: Visit, boxes: map<string, Box>, c: Box, st: State,
                         cyc: Cycle, p: Progress, done: set<string>, missed: set<Ref>)
    requires mailbox in boxes && Evolves(boxes[mailbox], c) && (v.examineFails || Shows(v, boxes[mailbox], c))
    requires Ledger(o.account, boxes, st, done, missed) && p.fates.Keys <= done
    ensures var f := FetchMailbox(o, mailbox, v, st, cyc, p);
            && p.fates.Keys <= f.p.fates.Keys
            && Ledger(o.account, boxes[mailbox := c], f.st,
                      done + f.p.fates.Keys + Outside(o, mailbox, v, st, cyc, p), missed + DeclinedRefs(f.end))
  {
    var range := RangeOf(o, mailbox, v, st);
    if v.examineFails || range.SearchFailed? {
      forall mb | mb in boxes ensures Evolves(boxes[mb], boxes[mailbox := c][mb]) {
      }
      LedgerStays(o.account, boxes, boxes[mailbox := c], st, done, missed);
      assert done + p.fates.Keys + {} == done && missed + {} == missed;
    } else {
      var d := Loop(o, mailbox, v, st, range, cyc, p);
      assert CursorSound(o.account, st, mailbox, boxes[mailbox], done, missed);
      if range.Nothing? {
        NothingSettles(o, mailbox, v, boxes[mailbox], c, st, cyc, p);
      } else {
        AskSettles(o, mailbox, v, boxes[mailbox], c, st, cyc, p);
      }
      FinishedVisitKeepsLedger(o, mailbox, v, boxes, c, st, p, d,
                               WritePair(st, mailbox, Dec(v.validity), Reached(v, d)), done, missed);
    }
  }
}
