/** One IMAP account's fetch (internal/provider/imap/imap.go). */
module Imap {
  import opened Text
  import opened Mail
  import opened Sync
  import opened ImapKeys
  import opened Pipeline

  /** A message as a mailbox holds it. */
  datatype Wire = Wire(uid: nat, raw: Bytes, date: int)

  /** A UID set in a request: `start:*`, or the uids of a search result. */
  datatype NumSet = From(start: nat) | Uids(uids: set<nat>)

  datatype Options = Options(account: string, mailboxes: seq<string>, lookback: int)

  /** What the server shows during one visit to a mailbox: EXAMINE's answer (a uidNext of 0 is
      one not reported), the messages there when SEARCH and FETCH run, and what fails.
      `breakAt` is the position in the reply where the connection dies or the context ends. */
  datatype Visit = Visit(
    validity: nat, uidNext: nat, count: nat, live: seq<Wire>, now: int,
    examineFails: bool, searchFails: bool, breakAt: Option<nat>)

  /** A connection: whether it is made at all, the clock when the fetch starts, the visits. */
  datatype Session = Session(connects: bool, start: int, visits: nat -> Visit)

  const DAY := 86400

  /** SEARCH SINCE compares days and disregards the time (section 6.4.4 of RFC 9051). */
  predicate Since(w: Wire, since: int) { w.date / DAY >= since / DAY }

  function Keep(live: seq<Wire>, p: Wire -> bool): seq<Wire> {
    if live == [] then []
    else (if p(live[0]) then [live[0]] else []) + Keep(live[1..], p)
  }

  /** The server's reply to a UID FETCH. A range `n:*` above every uid still answers with the
      last message, because `*` is the largest uid in use (section 6.4.8 of RFC 3501). */
  function Answer(live: seq<Wire>, ask: NumSet): seq<Wire> {
    match ask
    case Uids(uids) => Keep(live, (w: Wire) => w.uid in uids)
    case From(start) =>
      var hits := if start == 0 then [] else Keep(live, (w: Wire) => w.uid >= start);
      if hits == [] && live != [] then [live[|live| - 1]] else hits
  }

  datatype Range = Nothing | Ask(ask: NumSet) | SearchFailed

  function SearchSince(live: seq<Wire>, since: int): set<nat> { set w | w in live && Since(w, since) :: w.uid }

  /** uidRange: what to ask the server for. Uid arithmetic is 32 bits wide. */
  function UidRange(o: Options, v: Visit, resync: bool, lastUid: nat): Range {
    var next := (lastUid + 1) % UID_LIMIT;
    if v.count == 0 then Nothing
    else if !resync then
      if v.uidNext > 0 && next >= v.uidNext then Nothing else Ask(From(next))
    else if o.lookback <= 0 then Ask(From(1))
    else if v.searchFails then SearchFailed
    else
      var since := v.now - o.lookback;
      var found := SearchSince(v.live, since);
      if found == {} then Nothing else Ask(Uids(found))
  }

  /** One message of one account: the triple its id is made of. */
  datatype Ref = Ref(mailbox: string, validity: nat, uid: nat)

  function IdOf(account: string, r: Ref): string { MessageID(account, r.mailbox, r.validity, r.uid) }

  /** How a mailbox's delivery ended: the whole reply was read, the connection broke, or the
      callback declined a message. */
  datatype End = Done | Broken | Declined(verdict: Verdict, ref: Ref)

  datatype Delivered = Delivered(p: Progress, highest: nat, end: End)

  function Raw(o: Options, mailbox: string, validity: nat, w: Wire): RawMessage {
    RawMessage(IdOf(o.account, Ref(mailbox, validity, w.uid)), "", w.raw, w.date, [mailbox])
  }

  function Max(a: nat, b: nat): nat { if a < b then b else a }

  /** deliver, from the k-th message of the reply on. */
  function ReadFrom(o: Options, mailbox: string, v: Visit, lastUid: nat, reply: seq<Wire>, k: nat,
                       highest: nat, seen: seq<string>, cyc: Cycle, p: Progress): Delivered
    requires k <= |reply|
    decreases |reply| - k
  {
    if v.breakAt == Some(k) then Delivered(p, highest, Broken)
    else if k == |reply| then Delivered(p, highest, Done)
    else
      var w := reply[k];
      if w.uid == 0 || w.uid <= lastUid then
        ReadFrom(o, mailbox, v, lastUid, reply, k + 1, highest, seen, cyc, p)
      else
        var raised := Max(highest, w.uid);
        var raw := Raw(o, mailbox, v.validity, w);
        if raw.id in seen then ReadFrom(o, mailbox, v, lastUid, reply, k + 1, raised, seen, cyc, p)
        else
          var (q, verdict) := Handle(cyc, p, raw);
          if verdict != Accept then Delivered(q, raised, Declined(verdict, Ref(mailbox, v.validity, w.uid)))
          else ReadFrom(o, mailbox, v, lastUid, reply, k + 1, raised, seen, cyc, q)
  }

  /** A mailbox's cursor: its stored uidvalidity and last uid. */
  function StoredValidity(st: State, mailbox: string): string { Extra(st.extra, ExtraKey(mailbox, UIDVALIDITY)) }

  function StoredUid(st: State, mailbox: string): nat { ParseUID(Extra(st.extra, ExtraKey(mailbox, LAST_UID))) }

  /** The two keys are written as a pair or not at all. */
  function WritePair(st: State, mailbox: string, validity: string, uid: nat): State {
    if uid == 0 then st
    else
      st.(extra := WithExtra(WithExtra(st.extra, ExtraKey(mailbox, UIDVALIDITY), validity),
                             ExtraKey(mailbox, LAST_UID), FormatUID(uid)))
  }

  datatype Fetched = Fetched(st: State, p: Progress, end: End)

  predicate Resyncs(v: Visit, st: State, mailbox: string) { StoredValidity(st, mailbox) != Dec(v.validity) }

  function StartUid(v: Visit, st: State, mailbox: string): nat {
    if Resyncs(v, st, mailbox) then 0 else StoredUid(st, mailbox)
  }

  /** What the delivery loop did, before the cursor is written. */
  function Reply(v: Visit, range: Range): seq<Wire> {
    if range.Ask? then Answer(v.live, range.ask) else []
  }

  function Loop(o: Options, mailbox: string, v: Visit, st: State, range: Range, cyc: Cycle, p: Progress): Delivered {
    var lastUid := StartUid(v, st, mailbox);
    if range.Ask? then ReadFrom(o, mailbox, v, lastUid, Reply(v, range), 0, lastUid, st.seen, cyc, p)
    else Delivered(p, lastUid, Done)
  }

  /** The uid a finished visit writes: nothing below the UIDNEXT seen at EXAMINE is still waiting. */
  function Reached(v: Visit, d: Delivered): nat {
    if d.end.Done? && v.uidNext > 1 && v.uidNext - 1 > d.highest then v.uidNext - 1 else d.highest
  }

  function FetchMailbox(o: Options, mailbox: string, v: Visit, st: State, cyc: Cycle, p: Progress): Fetched {
    if v.examineFails then Fetched(st, p, Broken)
    else
      var range := UidRange(o, v, Resyncs(v, st, mailbox), StartUid(v, st, mailbox));
      if range.SearchFailed? then Fetched(st, p, Broken)
      else
        var d := Loop(o, mailbox, v, st, range, cyc, p);
        Fetched(WritePair(st, mailbox, Dec(v.validity), Reached(v, d)), d.p, d.end)
  }

  /** The configured mailboxes from the i-th on, each with its own cursor. */
  function FetchFrom(o: Options, i: nat, s: Session, st: State, cyc: Cycle, p: Progress): Fetched
    requires i <= |o.mailboxes|
    decreases |o.mailboxes| - i
  {
    if i == |o.mailboxes| then Fetched(st.(lastSync := Some(s.start)), p, Done)
    else
      var f := FetchMailbox(o, o.mailboxes[i], s.visits(i), st, cyc, p);
      if f.end.Done? then FetchFrom(o, i + 1, s, f.st, cyc, f.p) else f
  }

  function Fetch(o: Options, s: Session, st: State, cyc: Cycle, p: Progress): Fetched {
    if s.connects then FetchFrom(o, 0, s, st, cyc, p) else Fetched(st, p, Broken)
  }

  function Grade(end: End): Ending {
    match end
    case Done => Completed
    case Broken => ProviderFailed
    case Declined(verdict, _) => if verdict.Stop? then Stopped else Aborted
  }

  class Provider {
    const o: Options

    constructor (o: Options)
      ensures this.o == o
    {
      this.o := o;
    }

    /** Runs the UID FETCH and hands each message to the callback. */
    method Deliver(mailbox: string, v: Visit, lastUid: nat, ask: NumSet, out: SyncState, cb: FetchCallback)
      returns (highest: nat, end: End)
      modifies cb
      ensures Delivered(cb.Value(), highest, end)
           == ReadFrom(o, mailbox, v, lastUid, Answer(v.live, ask), 0, lastUid, out.seen, cb.cyc, old(cb.Value()))
    {
      var reply := Answer(v.live, ask);
      highest := lastUid;
      var k := 0;
      while true
        invariant 0 <= k <= |reply|
        invariant ReadFrom(o, mailbox, v, lastUid, reply, 0, lastUid, out.seen, cb.cyc, old(cb.Value()))
               == ReadFrom(o, mailbox, v, lastUid, reply, k, highest, out.seen, cb.cyc, cb.Value())
        decreases |reply| - k
      {
        if v.breakAt == Some(k) {
          return highest, Broken;
        }
        if k == |reply| {
          return highest, Done;
        }
        var w := reply[k];
        k := k + 1;
        if w.uid == 0 || w.uid <= lastUid {
          continue;
        }
        if w.uid > highest {
          highest := w.uid;
        }
        var raw := Raw(o, mailbox, v.validity, w);
        var seen := out.Seen(raw.id);
        if seen {
          continue;
        }
        var verdict := cb.Call(raw);
        if verdict != Accept {
          return highest, Declined(verdict, Ref(mailbox, v.validity, w.uid));
        }
      }
    }

    /** Syncs one folder, updating the cursor keys for it. */
    method FetchOne(mailbox: string, v: Visit, out: SyncState, cb: FetchCallback) returns (end: End)
      modifies out, cb
      ensures Fetched(out.Value(), cb.Value(), end)
           == FetchMailbox(o, mailbox, v, old(out.Value()), cb.cyc, old(cb.Value()))
    {
      if v.examineFails {
        return Broken;
      }
      var validityKey, lastUidKey := ExtraKey(mailbox, UIDVALIDITY), ExtraKey(mailbox, LAST_UID);
      var validity := Dec(v.validity);
      var resync := out.GetExtra(validityKey) != validity;
      var lastUid := if resync then 0 else ParseUID(out.GetExtra(lastUidKey));
      var range := UidRange(o, v, resync, lastUid);
      if range.SearchFailed? {
        return Broken;
      }
      var highest := lastUid;
      end := Done;
      if range.Ask? {
        highest, end := Deliver(mailbox, v, lastUid, range.ask, out, cb);
      }
      if end.Done? && v.uidNext > 1 && v.uidNext - 1 > highest {
        highest := v.uidNext - 1;
      }
      if highest > 0 {
        out.SetExtra(validityKey, validity);
        out.SetExtra(lastUidKey, FormatUID(highest));
      }
    }

    method Run(s: Session, st: State, cb: FetchCallback) returns (out: SyncState, end: End)
      modifies cb
      ensures fresh(out)
      ensures Fetched(out.Value(), cb.Value(), end) == Fetch(o, s, st, cb.cyc, old(cb.Value()))
    {
      out := new SyncState.Clone(st);
      if !s.connects {
        return out, Broken;
      }
      var i := 0;
      while i < |o.mailboxes|
        invariant 0 <= i <= |o.mailboxes| && fresh(out)
        invariant FetchFrom(o, 0, s, st, cb.cyc, old(cb.Value())) == FetchFrom(o, i, s, out.Value(), cb.cyc, cb.Value())
      {
        end := FetchOne(o.mailboxes[i], s.visits(i), out, cb);
        if !end.Done? {
          return out, end;
        }
        i := i + 1;
      }
      out.lastSync := Some(s.start);
      end := Done;
    }
  }
}
