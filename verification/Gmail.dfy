/** One Gmail account's fetch (internal/provider/gmail/gmail.go, history.go, fetch.go). */
module Gmail {
  import opened Text
  import opened Seqs
  import opened Mail
  import opened Sync
  import opened Pipeline

  const RECOVERY_OVERLAP := 86400
  const LABEL_SPAM := "SPAM"
  const LABEL_TRASH := "TRASH"

  datatype Options = Options(account: string, query: string, lookback: int, includeSpamTrash: bool)

  // ------------------------------------------------------------------ server replies

  /** One users.history.list record: its history id and the messages added. */
  datatype Record = Record(id: nat, added: seq<string>)

  datatype HistoryPage = HistoryPage(records: seq<Record>, historyId: nat)

  /** How walking a listing ended: at a page without a next token, at a 404, at any other failure. */
  datatype Walk = Complete | NotFound | Fails

  /** One users.messages.get: the message, a 404, or any other failure. */
  datatype Answer = Got(raw: RawMessage) | Gone(id: string) | Failed

  /** Everything one fetch is told: the clock readings, the pages of each listing and how it
      ended, the profile's cursor (None if it cannot be read), and the download's results in the
      order they arrive. A cancelled context shows as `cancelled` before a download starts, and as
      `cutShort` when some of its results never arrive. */
  datatype Session = Session(
    syncStart: int, scanStart: int, scanNow: int,
    history: seq<HistoryPage>, historyWalk: Walk,
    profile: Option<nat>, listing: seq<seq<string>>, listingWalk: Walk,
    cancelled: bool, labelsFail: bool, answers: seq<Answer>, cutShort: bool)

  // ------------------------------------------------------------------------ listings

  function NonBlank(ids: seq<string>): seq<string> {
    if ids == [] then [] else (if ids[0] == "" then [] else [ids[0]]) + NonBlank(ids[1..])
  }

  function RecordIds(records: seq<Record>): seq<string> {
    if records == [] then [] else NonBlank(records[0].added) + RecordIds(records[1..])
  }

  function HistoryIdsOf(pages: seq<HistoryPage>): seq<string> {
    if pages == [] then [] else RecordIds(pages[0].records) + HistoryIdsOf(pages[1..])
  }

  function Higher(a: nat, b: nat): nat { if b > a then b else a }

  function HighestRecord(records: seq<Record>, start: nat): nat
    decreases |records|
  {
    if records == [] then start else HighestRecord(records[1..], Higher(start, records[0].id))
  }

  /** The highest history id anywhere in the reply, or the one asked from. */
  function Highest(pages: seq<HistoryPage>, start: nat): nat
    decreases |pages|
  {
    if pages == [] then start
    else Highest(pages[1..], Higher(HighestRecord(pages[0].records, start), pages[0].historyId))
  }

  function ListedIds(pages: seq<seq<string>>): seq<string> {
    if pages == [] then [] else NonBlank(pages[0]) + ListedIds(pages[1..])
  }

  // ----------------------------------------------------------------------- the query

  /** A full scan's `q`: the account query, parenthesised beside a time bound. */
  datatype Scan = Scan(query: string, after: Option<int>)

  predicate FirstEver(st: State) { st.historyId == 0 && st.lastSync == None }

  /** scanAfter: the stored watermark less the overlap; without one, the lookback of a first run
      only. */
  function ScanAfter(o: Options, st: State, firstEver: bool, now: int): Option<int> {
    if st.lastSync.Some? then Some(st.lastSync.value - RECOVERY_OVERLAP)
    else if firstEver && o.lookback > 0 then Some(now - o.lookback)
    else None
  }

  function ScanQuery(o: Options, st: State, firstEver: bool, now: int): Scan {
    Scan(if firstEver then TrimSpace(o.query) else "", ScanAfter(o, st, firstEver, now))
  }

  // ------------------------------------------------------------------------ download

  datatype End = Done | Broken | Declined(verdict: Verdict, id: string)

  datatype Downloaded = Downloaded(seen: seq<string>, p: Progress, end: End)

  predicate Excluded(o: Options, raw: RawMessage) {
    !o.includeSpamTrash && (LABEL_SPAM in raw.labels || LABEL_TRASH in raw.labels)
  }

  function Pending(ids: seq<string>, seen: seq<string>): seq<string> {
    if ids == [] then []
    else (if ids[0] == "" || ids[0] in seen then [] else [ids[0]]) + Pending(ids[1..], seen)
  }

  /** The results of a download from the k-th on: the first failure ends it. */
  function Drain(o: Options, s: Session, k: nat, seen: seq<string>, cyc: Cycle, p: Progress): Downloaded
    requires k <= |s.answers|
    decreases |s.answers| - k
  {
    if k == |s.answers| then Downloaded(seen, p, if s.cutShort then Broken else Done)
    else
      match s.answers[k]
      case Gone(_) => Drain(o, s, k + 1, seen, cyc, p)
      case Failed => Downloaded(seen, p, Broken)
      case Got(raw) =>
        if Excluded(o, raw) then Drain(o, s, k + 1, seen, cyc, p)
        else
          var (q, verdict) := Handle(cyc, p, raw);
          if verdict != Accept then Downloaded(seen, q, Declined(verdict, raw.id))
          else Drain(o, s, k + 1, Marked(seen, raw.id), cyc, q)
  }

  function Download(o: Options, s: Session, ids: seq<string>, seen: seq<string>, cyc: Cycle, p: Progress): Downloaded {
    if Pending(ids, seen) == [] then Downloaded(seen, p, Done)
    else if s.cancelled || s.labelsFail then Downloaded(seen, p, Broken)
    else Drain(o, s, 0, seen, cyc, p)
  }

  /** How many of those results, up to where the download ends, say that their message was deleted
      after it was listed. */
  function VanishedFrom(o: Options, s: Session, k: nat, seen: seq<string>, cyc: Cycle, p: Progress): nat
    requires k <= |s.answers|
    decreases |s.answers| - k
  {
    if k == |s.answers| then 0
    else
      match s.answers[k]
      case Gone(_) => 1 + VanishedFrom(o, s, k + 1, seen, cyc, p)
      case Failed => 0
      case Got(raw) =>
        if Excluded(o, raw) then VanishedFrom(o, s, k + 1, seen, cyc, p)
        else
          var (q, verdict) := Handle(cyc, p, raw);
          if verdict != Accept then 0 else VanishedFrom(o, s, k + 1, Marked(seen, raw.id), cyc, q)
  }

  function VanishedIn(o: Options, s: Session, ids: seq<string>, seen: seq<string>, cyc: Cycle, p: Progress): nat {
    if Pending(ids, seen) == [] || s.cancelled || s.labelsFail then 0 else VanishedFrom(o, s, 0, seen, cyc, p)
  }

  // --------------------------------------------------------------------------- fetch

  datatype Fetched = Fetched(st: State, p: Progress, end: End)

  function FullScan(o: Options, s: Session, st: State, firstEver: bool, cyc: Cycle, p: Progress): Fetched {
    if s.profile.None? || !s.listingWalk.Complete? then Fetched(st, p, Broken)
    else
      var d := Download(o, s, Dedup(ListedIds(s.listing)), st.seen, cyc, p);
      var st' := st.(seen := d.seen);
      Fetched(if d.end.Done? then st'.(historyId := s.profile.value, lastSync := Some(s.scanStart)) else st', d.p, d.end)
  }

  function Incremental(o: Options, s: Session, st: State, cyc: Cycle, p: Progress): Fetched {
    var d := Download(o, s, Dedup(HistoryIdsOf(s.history)), st.seen, cyc, p);
    var st' := st.(seen := d.seen);
    Fetched(if d.end.Done? then
              st'.(historyId := Higher(st.historyId, Highest(s.history, st.historyId)), lastSync := Some(s.syncStart))
            else st', d.p, d.end)
  }

  /** The incremental route while the cursor is good, and the full scan where there is none or
      history answers 404. Whether this is a first run is read off the state handed in. */
  function Fetch(o: Options, s: Session, st: State, cyc: Cycle, p: Progress): Fetched {
    if st.historyId == 0 then FullScan(o, s, st, FirstEver(st), cyc, p)
    else
      match s.historyWalk
      case Complete => Incremental(o, s, st, cyc, p)
      case NotFound => FullScan(o, s, st.(historyId := 0), FirstEver(st), cyc, p)
      case Fails => Fetched(st, p, Broken)
  }

  /** VanishedCount, after a fetch. */
  function Vanished(o: Options, s: Session, st: State, cyc: Cycle, p: Progress): nat {
    if st.historyId > 0 && s.historyWalk.Fails? then 0
    else if st.historyId > 0 && s.historyWalk.Complete? then VanishedIn(o, s, Dedup(HistoryIdsOf(s.history)), st.seen, cyc, p)
    else if s.profile.None? || !s.listingWalk.Complete? then 0
    else VanishedIn(o, s, Dedup(ListedIds(s.listing)), st.seen, cyc, p)
  }

  function Grade(end: End): Ending {
    match end
    case Done => Completed
    case Broken => ProviderFailed
    case Declined(verdict, _) => if verdict.Stop? then Stopped else Aborted
  }

  // ---------------------------------------------------------------- implementation

  /** Appending one more id to a list built with a seen map. */
  lemma AddAllOne(all: seq<string>, more: seq<string>, id: string)
    ensures AddAll(all, more + [id]) == AddNew(AddAll(all, more), id)
  {
    AddAllConcat(all, more, [id]);
    assert [id][1..] == [];
  }

  lemma {:induction false} NonBlankStep(ids: seq<string>, i: nat)
    requires i < |ids|
    ensures NonBlank(ids[..i + 1]) == if ids[i] == "" then NonBlank(ids[..i]) else NonBlank(ids[..i]) + [ids[i]]
  {
    if i == 0 {
      assert ids[..1][1..] == [];
    } else {
      assert ids[..i + 1][1..] == ids[1..][..i] && ids[..i][1..] == ids[1..][..i - 1];
      NonBlankStep(ids[1..], i - 1);
    }
  }

  /** One list's ids, added to those already listed: blanks and repeats are dropped. */
  method AddListed(ids: seq<string>, more: seq<string>) returns (all: seq<string>)
    ensures all == AddAll(ids, NonBlank(more))
  {
    all := ids;
    var i := 0;
    while i < |more|
      invariant 0 <= i <= |more|
      invariant all == AddAll(ids, NonBlank(more[..i]))
    {
      NonBlankStep(more, i);
      if more[i] != "" {
        AddAllOne(ids, NonBlank(more[..i]), more[i]);
        if more[i] !in all {
          all := all + [more[i]];
        }
      }
      i := i + 1;
    }
    assert more[..i] == more;
  }

  /** historyIDs: the new ids in first-seen order and the highest cursor observed. */
  method HistoryIds(start: nat, pages: seq<HistoryPage>) returns (ids: seq<string>, max: nat)
    ensures ids == Dedup(HistoryIdsOf(pages)) && max == Highest(pages, start)
  {
    ids, max := [], start;
    var i := 0;
    while i < |pages|
      invariant 0 <= i <= |pages|
      invariant AddAll([], HistoryIdsOf(pages)) == AddAll(ids, HistoryIdsOf(pages[i..]))
      invariant Highest(pages, start) == Highest(pages[i..], max)
    {
      var records := pages[i].records;
      ghost var before, cursor := ids, max;
      var k := 0;
      while k < |records|
        invariant 0 <= k <= |records|
        invariant AddAll(before, RecordIds(records)) == AddAll(ids, RecordIds(records[k..]))
        invariant HighestRecord(records, cursor) == HighestRecord(records[k..], max)
      {
        if records[k].id > max {
          max := records[k].id;
        }
        AddAllConcat(ids, NonBlank(records[k].added), RecordIds(records[k..][1..]));
        ids := AddListed(ids, records[k].added);
        k := k + 1;
      }
      AddAllConcat(before, RecordIds(records), HistoryIdsOf(pages[i..][1..]));
      if pages[i].historyId > max {
        max := pages[i].historyId;
      }
      i := i + 1;
    }
  }

  method ListIds(pages: seq<seq<string>>) returns (ids: seq<string>)
    ensures ids == Dedup(ListedIds(pages))
  {
    ids := [];
    var i := 0;
    while i < |pages|
      invariant 0 <= i <= |pages|
      invariant AddAll([], ListedIds(pages)) == AddAll(ids, ListedIds(pages[i..]))
    {
      AddAllConcat(ids, NonBlank(pages[i]), ListedIds(pages[i..][1..]));
      ids := AddListed(ids, pages[i]);
      i := i + 1;
    }
  }

  class Provider {
    const o: Options
    var vanished: nat

    constructor (o: Options)
      ensures this.o == o && vanished == 0
    {
      this.o, vanished := o, 0;
    }

    /** Downloads every id not already seen and hands each message to the callback. */
    method DownloadIds(s: Session, ids: seq<string>, out: SyncState, cb: FetchCallback) returns (end: End)
      modifies out, cb, `vanished
      ensures var d := Download(o, s, ids, old(out.seen), cb.cyc, old(cb.Value()));
              out.Value() == old(out.Value()).(seen := d.seen) && cb.Value() == d.p && end == d.end
      ensures vanished == old(vanished) + VanishedIn(o, s, ids, old(out.seen), cb.cyc, old(cb.Value()))
    {
      var pending: seq<string> := [];
      var i := 0;
      while i < |ids|
        invariant 0 <= i <= |ids|
        invariant out.Value() == old(out.Value()) && cb.Value() == old(cb.Value()) && vanished == old(vanished)
        invariant Pending(ids, out.seen) == pending + Pending(ids[i..], out.seen)
      {
        if ids[i] != "" {
          var seen := out.Seen(ids[i]);
          if !seen {
            pending := pending + [ids[i]];
          }
        }
        i := i + 1;
      }
      if |pending| == 0 {
        return Done;
      }
      if s.cancelled || s.labelsFail {
        return Broken;
      }
      end := DrainResults(s, out, cb);
    }

    /** Hands the downloaded messages over as they arrive, up to the first failure. */
    method DrainResults(s: Session, out: SyncState, cb: FetchCallback) returns (end: End)
      modifies out, cb, `vanished
      ensures var d := Drain(o, s, 0, old(out.seen), cb.cyc, old(cb.Value()));
              out.Value() == old(out.Value()).(seen := d.seen) && cb.Value() == d.p && end == d.end
      ensures vanished == old(vanished) + VanishedFrom(o, s, 0, old(out.seen), cb.cyc, old(cb.Value()))
    {
      var k := 0;
      while k < |s.answers|
        invariant 0 <= k <= |s.answers|
        invariant out.Value() == old(out.Value()).(seen := out.seen)
        invariant Drain(o, s, 0, old(out.seen), cb.cyc, old(cb.Value())) == Drain(o, s, k, out.seen, cb.cyc, cb.Value())
        invariant old(vanished) + VanishedFrom(o, s, 0, old(out.seen), cb.cyc, old(cb.Value()))
                  == vanished + VanishedFrom(o, s, k, out.seen, cb.cyc, cb.Value())
      {
        var answer := s.answers[k];
        if answer.Failed? {
          return Broken;
        }
        if answer.Got? && !Excluded(o, answer.raw) {
          var verdict := cb.Call(answer.raw);
          if verdict != Accept {
            return Declined(verdict, answer.raw.id);
          }
          out.MarkSeen(answer.raw.id);
        }
        if answer.Gone? {
          vanished := vanished + 1;
        }
        k := k + 1;
      }
      end := if s.cutShort then Broken else Done;
    }

    method Scan(s: Session, firstEver: bool, out: SyncState, cb: FetchCallback) returns (end: End)
      modifies out, cb, `vanished
      ensures Fetched(out.Value(), cb.Value(), end) == FullScan(o, s, old(out.Value()), firstEver, cb.cyc, old(cb.Value()))
      ensures vanished == old(vanished) + if s.profile.None? || !s.listingWalk.Complete? then 0
                                          else VanishedIn(o, s, Dedup(ListedIds(s.listing)), old(out.seen), cb.cyc, old(cb.Value()))
    {
      if s.profile.None? || !s.listingWalk.Complete? {
        return Broken;
      }
      var ids := ListIds(s.listing);
      end := DownloadIds(s, ids, out, cb);
      if !end.Done? {
        return;
      }
      out.historyId := s.profile.value;
      out.lastSync := Some(s.scanStart);
    }

    method Run(s: Session, st: State, cb: FetchCallback) returns (out: SyncState, end: End)
      modifies cb, `vanished
      ensures fresh(out)
      ensures Fetched(out.Value(), cb.Value(), end) == Fetch(o, s, st, cb.cyc, old(cb.Value()))
      ensures vanished == Vanished(o, s, st, cb.cyc, old(cb.Value()))
    {
      vanished := 0;
      out := new SyncState.Clone(st);
      var firstEver := st.historyId == 0 && st.lastSync == None;
      if out.historyId > 0 {
        if s.historyWalk.Fails? {
          return out, Broken;
        }
        if s.historyWalk.Complete? {
          var ids, next := HistoryIds(out.historyId, s.history);
          end := DownloadIds(s, ids, out, cb);
          if end.Done? {
            if next > out.historyId {
              out.historyId := next;
            }
            out.lastSync := Some(s.syncStart);
          }
          return;
        }
        out.historyId := 0;
      }
      end := Scan(s, firstEver, out, cb);
    }
  }
}
