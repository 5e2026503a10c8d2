/** Ordering records and folding a page of them into conversations
    (internal/mcpserver/archive.go, tools.go). */
module Grouping {
  import opened Seqs

  datatype Record = Record(
    id: string, path: string, date: int, threadId: string, source: string, from: string, subject: string)

  // ---------------------------------------------------------------------------- order

  /** Go's byte-wise order on strings. */
  predicate Before(a: string, b: string) {
    b != "" && (a == "" || a[0] < b[0] || (a[0] == b[0] && Before(a[1..], b[1..])))
  }

  lemma {:induction false} BeforeIsOrder(a: string, b: string, c: string)
    ensures !Before(a, a)
    ensures a == b || Before(a, b) || Before(b, a)
    ensures Before(a, b) && Before(b, c) ==> Before(a, c)
  {
    if a != "" && b != "" && c != "" {
      BeforeIsOrder(a[1..], b[1..], c[1..]);
    } else if a != "" && b != "" {
      BeforeIsOrder(a[1..], b[1..], "");
    } else if a != "" {
      BeforeIsOrder(a[1..], "", "");
    }
  }

  /** sortByDateAscending's order: older first, then by id. */
  predicate Older(a: Record, b: Record) { a.date < b.date || (a.date == b.date && Before(a.id, b.id)) }

  /** sortRecords' order: newer first, then by id, then by path. */
  predicate Newer(a: Record, b: Record) {
    a.date > b.date || (a.date == b.date && (Before(a.id, b.id) || (a.id == b.id && Before(a.path, b.path))))
  }

  /** The two orders records are sorted by. */
  datatype Order = OldestFirst | NewestFirst

  predicate Less(order: Order, a: Record, b: Record) { if order.OldestFirst? then Older(a, b) else Newer(a, b) }

  /** Both are what Go's sort asks for: a strict weak order. */
  lemma LessIsOrder(order: Order, a: Record, b: Record, c: Record)
    ensures !(Less(order, a, b) && Less(order, b, a))
    ensures !Less(order, b, a) && !Less(order, c, b) ==> !Less(order, c, a)
  {
    BeforeIsOrder(a.id, b.id, a.id);
    BeforeIsOrder(c.id, a.id, b.id);
    BeforeIsOrder(a.id, b.id, c.id);
    BeforeIsOrder(a.path, b.path, a.path);
    BeforeIsOrder(c.path, a.path, b.path);
    BeforeIsOrder(a.path, b.path, c.path);
  }

  ghost predicate Ascending(s: seq<Record>, order: Order) { forall i, j | 0 <= i < j < |s| :: !Less(order, s[j], s[i]) }

  /** A stable sort takes each record in turn, behind those that do not come after it. */
  function Inserted(s: seq<Record>, x: Record, order: Order): seq<Record> {
    if s == [] then [x]
    else if Less(order, x, s[|s| - 1]) then Inserted(s[..|s| - 1], x, order) + [s[|s| - 1]]
    else s + [x]
  }

  function Sorted(s: seq<Record>, order: Order): seq<Record> {
    if s == [] then [] else Inserted(Sorted(s[..|s| - 1], order), s[|s| - 1], order)
  }

  lemma AscendingAppend(s: seq<Record>, x: Record, order: Order)
    requires Ascending(s, order) && forall r | r in s :: !Less(order, x, r)
    ensures Ascending(s + [x], order)
  {
  }

  lemma {:induction false} InsertedHolds(s: seq<Record>, x: Record, order: Order)
    ensures multiset(Inserted(s, x, order)) == multiset(s) + multiset{x}
    ensures forall r :: r in Inserted(s, x, order) <==> r in s || r == x
  {
    if s != [] {
      var front, last := s[..|s| - 1], s[|s| - 1];
      assert s == front + [last];
      InsertedHolds(front, x, order);
    }
  }

  lemma {:induction false} InsertedAscends(s: seq<Record>, x: Record, order: Order)
    requires Ascending(s, order)
    ensures Ascending(Inserted(s, x, order), order)
  {
    if s != [] {
      var front, last := s[..|s| - 1], s[|s| - 1];
      assert s == front + [last];
      if Less(order, x, last) {
        InsertedAscends(front, x, order);
        InsertedHolds(front, x, order);
        LessIsOrder(order, x, last, x);
        AscendingAppend(Inserted(front, x, order), last, order);
      } else {
        forall r | r in s ensures !Less(order, x, r) {
          LessIsOrder(order, r, last, x);
        }
        AscendingAppend(s, x, order);
      }
    }
  }

  /** The library sort gives the same records, in order. */
  lemma {:induction false} SortedIsSorted(s: seq<Record>, order: Order)
    ensures Ascending(Sorted(s, order), order) && multiset(Sorted(s, order)) == multiset(s)
  {
    if s != [] {
      var front, last := s[..|s| - 1], s[|s| - 1];
      assert s == front + [last];
      SortedIsSorted(front, order);
      InsertedAscends(Sorted(front, order), last, order);
      InsertedHolds(Sorted(front, order), last, order);
    }
  }

  lemma InsertedStep(done: seq<Record>, k: nat, x: Record, order: Order)
    requires k < |done| && Less(order, x, done[k])
    ensures Inserted(done[..k + 1], x, order) + done[k + 1..] == Inserted(done[..k], x, order) + done[k..]
  {
    assert done[..k + 1][..k] == done[..k];
    assert done[k..] == [done[k]] + done[k + 1..];
  }

  lemma InsertedStop(done: seq<Record>, k: nat, x: Record, order: Order)
    requires k <= |done| && (k > 0 ==> !Less(order, x, done[k - 1]))
    ensures Inserted(done[..k], x, order) == done[..k] + [x]
  {
  }

  /** The array while x is on its way down: the k records before it, and the rest behind it. */
  function Shifted(done: seq<Record>, k: nat, x: Record, rest: seq<Record>): seq<Record>
    requires k <= |done|
  {
    done[..k] + [x] + done[k..] + rest
  }

  lemma SwapShifts(done: seq<Record>, k: nat, x: Record, rest: seq<Record>)
    requires 0 < k <= |done|
    ensures var s := Shifted(done, k, x, rest);
            s[k] == x && s[k - 1] == done[k - 1] && s[k := done[k - 1]][k - 1 := x] == Shifted(done, k - 1, x, rest)
  {
  }

  lemma StopShifts(done: seq<Record>, k: nat, x: Record, rest: seq<Record>, order: Order)
    requires k <= |done| && (k > 0 ==> !Less(order, x, done[k - 1]))
    requires Inserted(done, x, order) == Inserted(done[..k], x, order) + done[k..]
    ensures Shifted(done, k, x, rest) == Inserted(done, x, order) + rest
  {
    InsertedStop(done, k, x, order);
  }

  /** Moves a[n] down behind the records before it that do not come after it. */
  method InsertLast(a: array<Record>, n: nat, order: Order)
    requires n < a.Length
    modifies a
    ensures a[..] == Inserted(old(a[..n]), old(a[n]), order) + old(a[n + 1..])
  {
    ghost var done, x, rest := a[..n], a[n], a[n + 1..];
    var k := n;
    assert done[..n] == done && done[n..] == [];
    assert a[..] == Shifted(done, n, x, rest);
    if n > 0 {
      SwapShifts(done, n, x, rest);
    }
    while k > 0 && Less(order, a[k], a[k - 1])
      invariant 0 <= k <= n && a[..] == Shifted(done, k, x, rest)
      invariant k > 0 ==> a[..][k] == x && a[..][k - 1] == done[k - 1]
      invariant Inserted(done, x, order) == Inserted(done[..k], x, order) + done[k..]
    {
      InsertedStep(done, k - 1, x, order);
      SwapShifts(done, k, x, rest);
      ghost var before := a[..];
      a[k], a[k - 1] := a[k - 1], a[k];
      assert a[..] == before[k := done[k - 1]][k - 1 := x];
      k := k - 1;
      if k > 0 {
        SwapShifts(done, k, x, rest);
      }
    }
    StopShifts(done, k, x, rest, order);
  }

  lemma {:induction false} InsertedLength(s: seq<Record>, x: Record, order: Order)
    ensures |Inserted(s, x, order)| == |s| + 1
  {
    if s != [] {
      InsertedLength(s[..|s| - 1], x, order);
    }
  }

  /** sort.SliceStable, in place. */
  method SliceStable(a: array<Record>, order: Order)
    modifies a
    ensures a[..] == Sorted(old(a[..]), order)
  {
    var n := 0;
    while n < a.Length
      invariant 0 <= n <= a.Length
      invariant a[..n] == Sorted(old(a[..])[..n], order) && a[n..] == old(a[..])[n..]
    {
      ghost var before, was := old(a[..]), a[..];
      assert before[..n + 1][..n] == before[..n] && before[..n + 1][n] == was[n..][0] == before[n..][0];
      assert before[n + 1..] == before[n..][1..] == was[n..][1..] == was[n + 1..];
      InsertLast(a, n, order);
      InsertedLength(was[..n], was[n], order);
      assert a[..n + 1] == a[..][..n + 1] && a[n + 1..] == a[..][n + 1..];
      n := n + 1;
    }
    assert a[..] == a[..n] && old(a[..]) == old(a[..])[..n];
  }

  method SortByDateAscending(a: array<Record>)
    modifies a
    ensures Ascending(a[..], OldestFirst) && multiset(a[..]) == multiset(old(a[..]))
    ensures a[..] == Sorted(old(a[..]), OldestFirst)
  {
    SortedIsSorted(a[..], OldestFirst);
    SliceStable(a, OldestFirst);
  }

  /** The order every page is cut from. */
  method SortRecords(a: array<Record>)
    modifies a
    ensures LatestFirst(a[..]) && multiset(a[..]) == multiset(old(a[..]))
  {
    SortedIsSorted(a[..], NewestFirst);
    SliceStable(a, NewestFirst);
  }

  ghost predicate LatestFirst(records: seq<Record>) { forall i, j | 0 <= i < j < |records| :: records[i].date >= records[j].date }

  // ------------------------------------------------------------------------- grouping

  /** A page's records of one thread, in page order. */
  function MembersOf(records: seq<Record>, thread: string): seq<Record> {
    if records == [] then []
    else MembersOf(records[..|records| - 1], thread)
         + if records[|records| - 1].threadId == thread then [records[|records| - 1]] else []
  }

  function ThreadIds(records: seq<Record>): seq<string> {
    if records == [] then [] else ThreadIds(records[..|records| - 1]) + [records[|records| - 1].threadId]
  }

  /** The threads of a page, in the order the page first mentions them. */
  function Mentioned(records: seq<Record>): seq<string> { Dedup(ThreadIds(records)) }

  /** How little a source is to be trusted; one that is none of these counts as the provider's. */
  function Rank(source: string): nat {
    if source == "references" then 1 else if source == "in_reply_to" then 2 else if source == "self" then 3 else 0
  }

  datatype Thread = Thread(threadId: string, source: string, members: seq<Record>, first: int, last: int)

  /** The worst-attested source of a group. */
  method WeakestSource(records: seq<Record>) returns (worst: string)
    requires records != []
    ensures (exists r | r in records :: r.source == worst) && forall r | r in records :: Rank(r.source) <= Rank(worst)
  {
    worst := records[0].source;
    var i := 1;
    while i < |records|
      invariant 1 <= i <= |records|
      invariant exists k | 0 <= k < i :: records[k].source == worst
      invariant forall k | 0 <= k < i :: Rank(records[k].source) <= Rank(worst)
    {
      if Rank(records[i].source) > Rank(worst) {
        worst := records[i].source;
      }
      i := i + 1;
    }
  }

  /** A thread of the page: its members oldest first, its dates theirs, its source the weakest. */
  ghost predicate IsThread(t: Thread, records: seq<Record>, thread: string) {
    && t.threadId == thread
    && t.members == Sorted(MembersOf(records, thread), OldestFirst) && t.members != []
    && t.first == t.members[0].date && t.last == t.members[|t.members| - 1].date
    && (exists r | r in t.members :: r.source == t.source) && (forall r | r in t.members :: Rank(r.source) <= Rank(t.source))
  }

  lemma OrderStep(records: seq<Record>, r: Record)
    ensures Mentioned(records + [r]) == AddNew(Mentioned(records), r.threadId)
  {
    assert (records + [r])[..|records|] == records;
    AddAllConcat([], ThreadIds(records), [r.threadId]);
    assert [r.threadId][1..] == [];
  }

  lemma {:induction false} OrderNames(records: seq<Record>, thread: string)
    ensures thread in Mentioned(records) <==> MembersOf(records, thread) != []
    ensures Distinct(Mentioned(records))
  {
    AddAllCollects([], ThreadIds(records));
    ThreadIdsName(records, thread);
  }

  lemma {:induction false} ThreadIdsName(records: seq<Record>, thread: string)
    ensures thread in ThreadIds(records) <==> MembersOf(records, thread) != []
  {
    if records != [] {
      ThreadIdsName(records[..|records| - 1], thread);
    }
  }

  lemma MembersStep(records: seq<Record>, r: Record, thread: string)
    ensures MembersOf(records + [r], thread) == MembersOf(records, thread) + if r.threadId == thread then [r] else []
  {
    assert (records + [r])[..|records|] == records;
  }

  /** Files one more record under its thread. */
  method Add(order: seq<string>, byThread: map<string, seq<Record>>, ghost before: seq<Record>, r: Record)
    returns (order': seq<string>, byThread': map<string, seq<Record>>)
    requires order == Mentioned(before) && (forall t :: t in byThread <==> t in order)
    requires forall t | t in byThread :: byThread[t] == MembersOf(before, t)
    ensures order' == Mentioned(before + [r]) && (forall t :: t in byThread' <==> t in order')
    ensures forall t | t in byThread' :: byThread'[t] == MembersOf(before + [r], t)
  {
    OrderStep(before, r);
    OrderNames(before, r.threadId);
    forall t ensures MembersOf(before + [r], t) == MembersOf(before, t) + if r.threadId == t then [r] else [] {
      MembersStep(before, r, t);
    }
    order', byThread' := order, byThread;
    if r.threadId !in byThread {
      order' := order + [r.threadId];
      byThread' := byThread[r.threadId := [r]];
    } else {
      byThread' := byThread[r.threadId := byThread[r.threadId] + [r]];
    }
  }

  method Collect(records: seq<Record>) returns (order: seq<string>, byThread: map<string, seq<Record>>)
    ensures order == Mentioned(records)
    ensures forall t | t in order :: t in byThread && byThread[t] == MembersOf(records, t)
  {
    order, byThread := [], map[];
    var i := 0;
    while i < |records|
      invariant 0 <= i <= |records|
      invariant order == Mentioned(records[..i]) && (forall t :: t in byThread <==> t in order)
      invariant forall t | t in byThread :: byThread[t] == MembersOf(records[..i], t)
    {
      assert records[..i + 1] == records[..i] + [records[i]];
      order, byThread := Add(order, byThread, records[..i], records[i]);
      i := i + 1;
    }
    assert records[..i] == records;
  }

  /** One thread of the page, its records sorted in place. */
  method OneThread(thread: string, page: seq<Record>, ghost records: seq<Record>) returns (t: Thread)
    requires page == MembersOf(records, thread) && page != []
    ensures IsThread(t, records, thread)
  {
    SortedIsSorted(page, OldestFirst);
    assert |multiset(Sorted(page, OldestFirst))| == |multiset(page)|;
    var a := new Record[|page|](k requires 0 <= k < |page| => page[k]);
    assert a[..] == page;
    SortByDateAscending(a);
    var members := a[..];
    var worst := WeakestSource(members);
    t := Thread(thread, worst, members, members[0].date, members[|members| - 1].date);
  }

  method GroupThreads(records: seq<Record>) returns (out: seq<Thread>)
    ensures |out| == |Mentioned(records)|
    ensures forall i | 0 <= i < |out| :: IsThread(out[i], records, Mentioned(records)[i])
  {
    var order, byThread := Collect(records);
    out := [];
    var i := 0;
    while i < |order|
      invariant 0 <= i <= |order| && |out| == i
      invariant forall k | 0 <= k < i :: IsThread(out[k], records, order[k])
    {
      OrderNames(records, order[i]);
      var t := OneThread(order[i], byThread[order[i]], records);
      out := out + [t];
      i := i + 1;
    }
  }

  // ------------------------------------------------------------------------- theorems

  lemma {:induction false} MembersCount(records: seq<Record>, thread: string, r: Record)
    ensures multiset(MembersOf(records, thread))[r] == if r.threadId == thread then multiset(records)[r] else 0
  {
    if records != [] {
      var front, last := records[..|records| - 1], records[|records| - 1];
      assert records == front + [last];
      MembersCount(front, thread, r);
    }
  }

  /** Grouping partitions the page: every record is in the thread it names, as often as it is in the
      page, and in no other; no thread is listed twice, and each is oldest first. */
  lemma GroupingPartitions(records: seq<Record>, out: seq<Thread>, r: Record, i: nat)
    requires |out| == |Mentioned(records)| && forall k | 0 <= k < |out| :: IsThread(out[k], records, Mentioned(records)[k])
    requires i < |out|
    ensures multiset(out[i].members)[r] == if r.threadId == out[i].threadId then multiset(records)[r] else 0
    ensures r in records ==> exists k | 0 <= k < |out| :: out[k].threadId == r.threadId
    ensures forall j | 0 <= j < |out| && out[j].threadId == out[i].threadId :: j == i
    ensures Ascending(out[i].members, OldestFirst)
  {
    var thread := Mentioned(records)[i];
    SortedIsSorted(MembersOf(records, thread), OldestFirst);
    MembersCount(records, thread, r);
    OrderNames(records, r.threadId);
    MembersCount(records, r.threadId, r);
    if r in records {
      assert r in multiset(records) && r in multiset(MembersOf(records, r.threadId));
      var k :| 0 <= k < |Mentioned(records)| && Mentioned(records)[k] == r.threadId;
      assert out[k].threadId == r.threadId;
    }
  }

  lemma {:induction false} MembersAreOlder(records: seq<Record>, thread: string)
    requires LatestFirst(records) && MembersOf(records, thread) != []
    ensures var m := MembersOf(records, thread);
            (forall r | r in m :: r.date <= m[0].date) && m[0] in records
  {
    var front, last := records[..|records| - 1], records[|records| - 1];
    if MembersOf(front, thread) != [] {
      MembersAreOlder(front, thread);
    }
  }

  /** On a page sorted newest first, threads first mentioned earlier have the later newest message. */
  lemma {:induction false} OrderIsByDate(records: seq<Record>, i: nat, j: nat)
    requires LatestFirst(records) && i < j < |Mentioned(records)|
    ensures MembersOf(records, Mentioned(records)[i]) != [] && MembersOf(records, Mentioned(records)[j]) != []
    ensures MembersOf(records, Mentioned(records)[i])[0].date >= MembersOf(records, Mentioned(records)[j])[0].date
  {
    var front, last := records[..|records| - 1], records[|records| - 1];
    assert records == front + [last];
    OrderStep(front, last);
    OrderNames(front, last.threadId);
    if j < |Mentioned(front)| {
      OrderIsByDate(front, i, j);
    } else {
      var t := Mentioned(front)[i];
      OrderNames(front, t);
      MembersAreOlder(front, t);
    }
  }

  lemma LastIsNewest(t: Thread, records: seq<Record>, thread: string)
    requires LatestFirst(records) && IsThread(t, records, thread)
    ensures MembersOf(records, thread) != [] && t.last == MembersOf(records, thread)[0].date
  {
    var m := MembersOf(records, thread);
    SortedIsSorted(m, OldestFirst);
    assert |multiset(t.members)| == |multiset(m)|;
    MembersAreOlder(records, thread);
    var newest := t.members[|t.members| - 1];
    assert newest in multiset(t.members) && newest in m;
    assert m[0] in multiset(m) && m[0] in t.members;
    var k :| 0 <= k < |t.members| && t.members[k] == m[0];
    assert k < |t.members| - 1 ==> !Less(OldestFirst, newest, t.members[k]);
  }

  /** Conversations come most recently active first. */
  lemma ThreadsByLastDate(records: seq<Record>, out: seq<Thread>, i: nat, j: nat)
    requires |out| == |Mentioned(records)| && forall k | 0 <= k < |out| :: IsThread(out[k], records, Mentioned(records)[k])
    requires LatestFirst(records) && i < j < |out|
    ensures out[i].last >= out[j].last
  {
    OrderIsByDate(records, i, j);
    LastIsNewest(out[i], records, Mentioned(records)[i]);
    LastIsNewest(out[j], records, Mentioned(records)[j]);
  }
}
