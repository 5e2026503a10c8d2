/** The two formats of an externally owned list, domains and RE2 patterns, read a line at a
    time (internal/filter/domainfile.go, regexfile.go). */
module ListFiles {
  import opened Text
  import opened Seqs
  import opened TextLines
  import opened Mail
  import opened Filter
  import opened FilterEngine

  /** The scanner's buffer: a stretch of 1 MiB without a line end stops it. */
  const MAX_LINE: nat := 0x10_0000

  const MAX_REPORTED_BAD_LINES: nat := 5

  // -------------------------------------------------------------- the line scanner

  function DropCR(s: string): string {
    if HasSuffix(s, "\r") then s[..|s| - 1] else s
  }

  /** The lines a file is made of; what follows its last line end is a line if there is any. */
  function RawLines(data: string): seq<string> {
    var all := SplitLines(data);
    if all[|all| - 1] == "" then all[..|all| - 1] else all
  }

  predicate IsShort(raw: string) { |raw| < MAX_LINE }

  /** The lines before the first that is too long. */
  function ShortLines(raws: seq<string>): seq<string> {
    if raws == [] || !IsShort(raws[0]) then [] else [DropCR(raws[0])] + ShortLines(raws[1..])
  }

  /** What a scan gives: its lines, and the number of the line it could not take. */
  datatype Scan = Scan(lines: seq<string>, cut: Option<nat>)

  function ScanOf(raws: seq<string>): Scan {
    var lines := ShortLines(raws);
    Scan(lines, if exists raw | raw in raws :: !IsShort(raw) then Some(|lines| + 1) else None)
  }

  function ScanFile(data: string): Scan { ScanOf(RawLines(data)) }

  lemma {:induction false} ShortThenMore(raws: seq<string>, more: seq<string>)
    requires forall raw | raw in raws :: IsShort(raw)
    ensures ShortLines(raws + more) == ShortLines(raws) + ShortLines(more)
    ensures |ShortLines(raws)| == |raws| && forall i | 0 <= i < |raws| :: ShortLines(raws)[i] == DropCR(raws[i])
  {
    if raws == [] {
      assert raws + more == more;
    } else {
      assert (raws + more)[1..] == raws[1..] + more;
      ShortThenMore(raws[1..], more);
      ConsConcat(DropCR(raws[0]), ShortLines(raws[1..]), ShortLines(more));
    }
  }

  lemma RawAfterEnded(raws: seq<string>, rest: string)
    requires forall raw | raw in raws :: '\n' !in raw
    ensures RawLines(Ended(raws) + rest) == raws + RawLines(rest)
  {
    SplitEnded(raws, rest);
    LastOfConcat(raws, SplitLines(rest));
  }

  lemma LastOfConcat(raws: seq<string>, more: seq<string>)
    requires more != []
    ensures var all := raws + more; all[|all| - 1] == more[|more| - 1] && all[..|all| - 1] == raws + more[..|more| - 1]
  {
  }

  /** Lines written are the lines read, whatever follows them. */
  lemma WrittenLinesAreRead(raws: seq<string>, rest: string)
    requires forall raw | raw in raws :: '\n' !in raw && IsShort(raw)
    ensures ScanFile(Ended(raws) + rest).lines == ShortLines(raws) + ScanFile(rest).lines
    ensures |ShortLines(raws)| == |raws| && forall i | 0 <= i < |raws| :: ShortLines(raws)[i] == DropCR(raws[i])
  {
    RawAfterEnded(raws, rest);
    ShortThenMore(raws, RawLines(rest));
  }

  /** The first line too long parts the lines into those read and the rest. */
  lemma {:induction false} FirstLong(raws: seq<string>) returns (k: nat)
    requires exists raw | raw in raws :: !IsShort(raw)
    ensures k < |raws| && !IsShort(raws[k]) && forall raw | raw in raws[..k] :: IsShort(raw)
  {
    if IsShort(raws[0]) {
      assert forall raw :: raw in raws <==> raw == raws[0] || raw in raws[1..];
      var n := FirstLong(raws[1..]);
      k := n + 1;
      assert raws[..k] == [raws[0]] + raws[1..][..n];
    } else {
      k := 0;
    }
  }

  /** A truncated scan has read every line before the first too long. */
  lemma CutIsAfter(raws: seq<string>, long: string, more: seq<string>)
    requires (forall raw | raw in raws :: IsShort(raw)) && !IsShort(long)
    ensures ScanOf(raws + ([long] + more)) == Scan(ShortLines(raws), Some(|raws| + 1))
  {
    var tail := [long] + more;
    var all := raws + tail;
    ShortThenMore(raws, tail);
    assert tail[0] == long && ShortLines(tail) == [];
    assert all[|raws|] == long && long in all;
    assert ShortLines(raws) + [] == ShortLines(raws);
    assert ShortLines(all) == ShortLines(raws);
  }

  lemma RawLinesArePrefix(data: string)
    ensures var all, raws := SplitLines(data), RawLines(data);
            && |all| - 1 <= |raws| <= |all| && raws == all[..|raws|]
            && (|raws| < |all| ==> all[|raws|] == "")
  {
    var all := SplitLines(data);
    assert all[..|all|] == all;
  }

  lemma {:induction false} JoinEnded(raws: seq<string>, more: seq<string>)
    requires more != []
    ensures JoinLines(raws + more) == Ended(raws) + JoinLines(more)
  {
    if raws == [] {
      assert raws + more == more;
    } else {
      assert raws + more == [raws[0]] + (raws[1..] + more);
      JoinCons(raws[0], raws[1..] + more);
      JoinEnded(raws[1..], more);
    }
  }

  lemma CutText(data: string, k: nat) returns (rest: string)
    requires k < |SplitLines(data)|
    ensures var all := SplitLines(data);
            && data == Ended(all[..k]) + rest && SplitLines(rest) == all[k..]
            && forall raw | raw in all[..k] :: '\n' !in raw
  {
    var all := SplitLines(data);
    rest := JoinLines(all[k..]);
    forall raw | raw in all ensures '\n' !in raw {
      LinesHoldNoEnd(data, raw);
    }
    JoinUndoesSplit(data);
    assert all == all[..k] + all[k..];
    JoinEnded(all[..k], all[k..]);
    SplitEnded(all[..k], rest);
  }

  lemma CutOf(raws: seq<string>) returns (k: nat)
    requires exists raw | raw in raws :: !IsShort(raw)
    ensures k < |raws| && !IsShort(raws[k]) && forall raw | raw in raws[..k] :: IsShort(raw)
    ensures ScanOf(raws) == Scan(ShortLines(raws[..k]), Some(k + 1))
  {
    k := FirstLong(raws);
    assert raws == raws[..k] + ([raws[k]] + raws[k + 1..]);
    CutIsAfter(raws[..k], raws[k], raws[k + 1..]);
  }

  lemma CutLine(data: string) returns (k: nat)
    requires ScanFile(data).cut.Some?
    ensures var all := SplitLines(data);
            && k < |all| && !IsShort(all[k]) && (forall raw | raw in all[..k] :: IsShort(raw))
            && ScanFile(data) == Scan(ShortLines(all[..k]), Some(k + 1))
  {
    k := CutOf(RawLines(data));
    RawLinesArePrefix(data);
    assert RawLines(data)[..k] == SplitLines(data)[..k];
  }

  /** A truncated scan has read every line before the one too long, and reads them again
      whatever is put in that one's place. */
  lemma LinesBeforeTheCut(data: string) returns (raws: seq<string>, rest: string)
    requires ScanFile(data).cut.Some?
    ensures data == Ended(raws) + rest && !IsShort(SplitLines(rest)[0])
    ensures ScanFile(data) == Scan(ShortLines(raws), Some(|raws| + 1))
    ensures forall other :: ScanFile(Ended(raws) + other).lines == ShortLines(raws) + ScanFile(other).lines
  {
    var k := CutLine(data);
    raws := SplitLines(data)[..k];
    rest := CutText(data, k);
    forall other ensures ScanFile(Ended(raws) + other).lines == ShortLines(raws) + ScanFile(other).lines {
      WrittenLinesAreRead(raws, other);
    }
  }

  /** n characters from i on without a line end. */
  predicate Unbroken(data: string, i: nat, n: nat) {
    i + n <= |data| && forall k | i <= k < i + n :: data[k] != '\n'
  }

  lemma UnbrokenBehind(raw: string, rest: string, i: nat, n: nat)
    ensures Unbroken(raw + "\n" + rest, |raw| + 1 + i, n) <==> Unbroken(rest, i, n)
  {
    var data := raw + "\n" + rest;
    assert forall k | 0 <= k < |rest| :: data[|raw| + 1 + k] == rest[k];
    if Unbroken(data, |raw| + 1 + i, n) {
      forall k | i <= k < i + n ensures rest[k] != '\n' {
        assert data[|raw| + 1 + k] == rest[k];
      }
    }
  }

  /** A stretch without a line end lies within the first line or behind it. */
  lemma UnbrokenIsInOrBehind(raw: string, rest: string, i: nat, n: nat)
    requires Unbroken(raw + "\n" + rest, i, n) && n > 0
    ensures i + n <= |raw| || (i > |raw| && Unbroken(rest, i - |raw| - 1, n))
  {
    assert (raw + "\n" + rest)[|raw|] == '\n';
    if i > |raw| {
      UnbrokenBehind(raw, rest, i - |raw| - 1, n);
    }
  }

  lemma {:induction false} LongLineShows(data: string, raw: string, n: nat) returns (i: nat)
    requires raw in SplitLines(data) && |raw| >= n
    ensures Unbroken(data, i, n)
    decreases |data|
  {
    var nl := IndexOf(data, '\n');
    LinesHoldNoEnd(data, raw);
    if nl < 0 || raw == data[..nl] {
      i := 0;
      assert forall k | 0 <= k < n :: data[k] == raw[k] && raw[k] in raw;
    } else {
      SplitCons(data);
      var k := LongLineShows(data[nl + 1..], raw, n);
      UnbrokenBehind(data[..nl], data[nl + 1..], k, n);
      i := nl + 1 + k;
    }
  }

  lemma {:induction false} LongShowsLine(data: string, i: nat, n: nat) returns (raw: string)
    requires Unbroken(data, i, n) && n > 0
    ensures raw in SplitLines(data) && |raw| >= n
    decreases |data|
  {
    var nl := IndexOf(data, '\n');
    if nl < 0 {
      raw := data;
    } else {
      SplitCons(data);
      raw := data[..nl];
      UnbrokenIsInOrBehind(raw, data[nl + 1..], i, n);
      if i > nl {
        raw := LongShowsLine(data[nl + 1..], i - nl - 1, n);
      }
    }
  }

  /** A line too long is not the empty last one, so it is one of the lines scanned. */
  lemma ShortenedHoldsLong(data: string, raw: string)
    requires raw in SplitLines(data) && |raw| >= MAX_LINE
    ensures raw in RawLines(data) && !IsShort(raw)
  {
    RawLinesArePrefix(data);
    var all := SplitLines(data);
    var j :| 0 <= j < |all| && all[j] == raw;
    assert j < |RawLines(data)|;
    assert RawLines(data)[j] == raw;
  }

  /** A scan stops short exactly when the file has a stretch of 1 MiB without a line end. */
  lemma TruncatedExactly(data: string)
    ensures ScanFile(data).cut.Some? <==> exists i: nat :: Unbroken(data, i, MAX_LINE)
  {
    RawLinesArePrefix(data);
    if raw :| raw in RawLines(data) && !IsShort(raw) {
      var i := LongLineShows(data, raw, MAX_LINE);
    }
    if i: nat :| Unbroken(data, i, MAX_LINE) {
      var raw := LongShowsLine(data, i, MAX_LINE);
      ShortenedHoldsLong(data, raw);
    }
  }

  // ------------------------------------------------------------------ domain lists

  function DomainOf(line: string): string {
    var hash := IndexOf(line, '#');
    NormalizeDomain(if hash >= 0 then line[..hash] else line)
  }

  function NamedDomains(lines: seq<string>): seq<string> {
    if lines == [] then []
    else
      var rest, domain := NamedDomains(lines[..|lines| - 1]), DomainOf(lines[|lines| - 1]);
      if domain == "" then rest else rest + [domain]
  }

  lemma DedupAppend<T>(s: seq<T>, x: T)
    ensures Dedup(s + [x]) == AddNew(Dedup(s), x)
  {
    AddAllConcat([], s, [x]);
  }

  lemma DomainStep(lines: seq<string>, i: nat)
    requires i < |lines|
    ensures var out, domain := Dedup(NamedDomains(lines[..i])), DomainOf(lines[i]);
            Dedup(NamedDomains(lines[..i + 1])) == if domain == "" then out else AddNew(out, domain)
  {
    assert lines[..i + 1][..i] == lines[..i];
    DedupAppend(NamedDomains(lines[..i]), DomainOf(lines[i]));
  }

  /** parseDomainList, with the line it stopped at as its error. */
  method ParseDomainList(scan: Scan) returns (out: seq<string>, cut: Option<nat>)
    ensures out == Dedup(NamedDomains(scan.lines))
    ensures cut == scan.cut
  {
    var lines := scan.lines;
    out := [];
    var seen: set<string> := {};
    for i := 0 to |lines|
      invariant out == Dedup(NamedDomains(lines[..i])) && forall d :: d in seen <==> d in out
    {
      var domain := DomainOf(lines[i]);
      DomainStep(lines, i);
      if domain != "" && domain !in seen {
        seen := seen + {domain};
        out := out + [domain];
      }
    }
    assert lines[..|lines|] == lines;
    cut := scan.cut;
  }

  lemma {:induction false} NamedDomainsAre(lines: seq<string>, d: string)
    ensures d in NamedDomains(lines) <==> d != "" && exists line | line in lines :: DomainOf(line) == d
  {
    if lines != [] {
      var front, last := lines[..|lines| - 1], lines[|lines| - 1];
      NamedDomainsAre(front, d);
      assert lines == front + [last];
    }
  }

  /** A domain list holds exactly what its lines name, each once. */
  lemma DomainsAreExact(scan: Scan, d: string)
    ensures var out := Dedup(NamedDomains(scan.lines));
            Distinct(out) && (d in out <==> d != "" && exists line | line in scan.lines :: DomainOf(line) == d)
  {
    AddAllCollects([], NamedDomains(scan.lines));
    NamedDomainsAre(scan.lines, d);
  }

  // ----------------------------------------------------------------- pattern lists

  /** A line that is neither blank nor a comment. */
  predicate IsEntry(text: string) { text != "" && !HasPrefix(text, "#") }

  /** compileListPattern: it compiles, and does not match everything. */
  predicate InForce(pattern: string, libs: Libs) {
    pattern != "" && libs.valid(pattern) && !libs.matches(pattern, "")
  }

  /** The entries among the lines that are, or are not, put in force. */
  function Entries(lines: seq<string>, good: bool, libs: Libs): seq<string> {
    if lines == [] then []
    else
      var rest, text := Entries(lines[..|lines| - 1], good, libs), TrimSpace(lines[|lines| - 1]);
      if IsEntry(text) && InForce(text, libs) == good then rest + [text] else rest
  }

  /** The numbers of the lines refused, counted from one. */
  function RefusedLines(lines: seq<string>, libs: Libs): seq<nat> {
    if lines == [] then []
    else
      var rest, text := RefusedLines(lines[..|lines| - 1], libs), TrimSpace(lines[|lines| - 1]);
      if IsEntry(text) && !InForce(text, libs) then rest + [|lines|] else rest
  }

  /** PatternFileStats.Err: a truncated scan wins over refused lines, of which five are named. */
  datatype Fault = NoFault | Cut(line: nat) | Refused(rejected: nat, total: nat, named: seq<nat>, more: nat)

  datatype Stats = Stats(patterns: seq<string>, rejected: nat, total: nat, fault: Fault)

  function Named(refused: seq<nat>): seq<nat> {
    if |refused| <= MAX_REPORTED_BAD_LINES then refused else refused[..MAX_REPORTED_BAD_LINES]
  }

  function FaultOf(cut: Option<nat>, refused: seq<nat>, total: nat): Fault {
    if cut.Some? then Cut(cut.value)
    else if refused != [] then Refused(|refused|, total, Named(refused), |refused| - |Named(refused)|)
    else NoFault
  }

  function Account(good: seq<string>, refused: seq<nat>, cut: Option<nat>): Stats {
    var total := |good| + |refused|;
    Stats(Dedup(good), |refused|, total, FaultOf(cut, refused, total))
  }

  function StatsOf(scan: Scan, libs: Libs): Stats {
    Account(Entries(scan.lines, true, libs), RefusedLines(scan.lines, libs), scan.cut)
  }

  lemma EntryStep(lines: seq<string>, i: nat, libs: Libs)
    requires i < |lines|
    ensures var text, out, refused := TrimSpace(lines[i]), Dedup(Entries(lines[..i], true, libs)), RefusedLines(lines[..i], libs);
            var now, after := Entries(lines[..i + 1], true, libs), RefusedLines(lines[..i + 1], libs);
            && Dedup(now) == (if IsEntry(text) && InForce(text, libs) then AddNew(out, text) else out)
            && |now| == |Entries(lines[..i], true, libs)| + (if IsEntry(text) && InForce(text, libs) then 1 else 0)
            && |after| == |refused| + (if IsEntry(text) && !InForce(text, libs) then 1 else 0)
            && Named(after) == if IsEntry(text) && !InForce(text, libs) && |Named(refused)| < MAX_REPORTED_BAD_LINES
                               then Named(refused) + [i + 1] else Named(refused)
  {
    assert lines[..i + 1][..i] == lines[..i];
    DedupAppend(Entries(lines[..i], true, libs), TrimSpace(lines[i]));
  }

  method PatternFileStats(scan: Scan, libs: Libs) returns (stats: Stats)
    ensures stats == StatsOf(scan, libs)
  {
    var lines := scan.lines;
    var out: seq<string>, reasons: seq<nat>, rejected, total := [], [], 0, 0;
    var seen: set<string> := {};
    for i := 0 to |lines|
      invariant out == Dedup(Entries(lines[..i], true, libs)) && forall p :: p in seen <==> p in out
      invariant rejected == |RefusedLines(lines[..i], libs)| && reasons == Named(RefusedLines(lines[..i], libs))
      invariant total == |Entries(lines[..i], true, libs)| + rejected
    {
      var text := TrimSpace(lines[i]);
      EntryStep(lines, i, libs);
      if IsEntry(text) {
        total := total + 1;
        if !InForce(text, libs) {
          rejected := rejected + 1;
          if |reasons| < MAX_REPORTED_BAD_LINES {
            reasons := reasons + [i + 1];
          }
        } else if text !in seen {
          seen := seen + {text};
          out := out + [text];
        }
      }
    }
    assert lines[..|lines|] == lines;
    var fault :=
      if scan.cut.Some? then Cut(scan.cut.value)
      else if rejected > 0 then Refused(rejected, total, reasons, rejected - |reasons|)
      else NoFault;
    stats := Stats(out, rejected, total, fault);
  }

  lemma {:induction false} EntriesAre(lines: seq<string>, good: bool, libs: Libs, p: string)
    ensures p in Entries(lines, good, libs) <==>
            IsEntry(p) && InForce(p, libs) == good && exists line | line in lines :: TrimSpace(line) == p
  {
    if lines != [] {
      var front, last := lines[..|lines| - 1], lines[|lines| - 1];
      EntriesAre(front, good, libs, p);
      assert lines == front + [last];
    }
  }

  /** The patterns in force are exactly the entries that pass the breadth guards, each once; so
      none of them matches everything, and a refused line costs its own entry only. */
  lemma PatternsAreExact(scan: Scan, libs: Libs, p: string)
    ensures var patterns := StatsOf(scan, libs).patterns;
            Distinct(patterns)
            && (p in patterns <==>
                IsEntry(p) && libs.valid(p) && !libs.matches(p, "")
                && exists line | line in scan.lines :: TrimSpace(line) == p)
  {
    AddAllCollects([], Entries(scan.lines, true, libs));
    EntriesAre(scan.lines, true, libs, p);
  }

  lemma {:induction false} RefusedLinesAre(lines: seq<string>, libs: Libs, n: nat)
    ensures n in RefusedLines(lines, libs) <==>
            1 <= n <= |lines| && IsEntry(TrimSpace(lines[n - 1])) && !InForce(TrimSpace(lines[n - 1]), libs)
  {
    if lines != [] {
      var front := lines[..|lines| - 1];
      RefusedLinesAre(front, libs, n);
      assert forall i | 0 <= i < |front| :: front[i] == lines[i];
    }
  }

  lemma {:induction false} RefusedLinesAscend(lines: seq<string>, libs: Libs)
    ensures var refused := RefusedLines(lines, libs);
            && |refused| == |Entries(lines, false, libs)|
            && (forall i | 0 <= i < |refused| :: refused[i] <= |lines|)
            && (forall i, j | 0 <= i < j < |refused| :: refused[i] < refused[j])
  {
    if lines != [] {
      RefusedLinesAscend(lines[..|lines| - 1], libs);
    }
  }

  /** The report names the first refused lines, five at most, and counts the others. */
  lemma RefusalsAreNamed(scan: Scan, libs: Libs, n: nat)
    requires StatsOf(scan, libs).fault.Refused?
    ensures var stats := StatsOf(scan, libs);
            var lines, fault := scan.lines, stats.fault;
            && fault.rejected == stats.rejected == |fault.named| + fault.more
            && |fault.named| <= MAX_REPORTED_BAD_LINES
            && (fault.more > 0 ==> |fault.named| == MAX_REPORTED_BAD_LINES)
            && (n in fault.named ==>
                1 <= n <= |lines| && IsEntry(TrimSpace(lines[n - 1])) && !InForce(TrimSpace(lines[n - 1]), libs))
            && (1 <= n <= |lines| && IsEntry(TrimSpace(lines[n - 1])) && !InForce(TrimSpace(lines[n - 1]), libs) ==>
                n in fault.named || (fault.more > 0 && forall k | k in fault.named :: k < n))
  {
    var refused := RefusedLines(scan.lines, libs);
    RefusedLinesAre(scan.lines, libs, n);
    RefusedLinesAscend(scan.lines, libs);
    assert forall k | k in Named(refused) :: k in refused;
  }

  lemma {:induction false} DedupShrinks<T>(s: seq<T>)
    ensures |Dedup(s)| <= |s| && (|Dedup(s)| == |s| <==> Distinct(s))
  {
    if s != [] {
      var front, last := s[..|s| - 1], s[|s| - 1];
      assert s == front + [last];
      DedupShrinks(front);
      DedupAppend(front, last);
      AddAllCollects([], front);
    }
  }

  /** The counts: every entry is accepted or refused, and what is in force is the accepted ones
      without their repeats. */
  lemma CountsAddUp(scan: Scan, libs: Libs)
    ensures var stats := StatsOf(scan, libs);
            && |stats.patterns| + stats.rejected <= stats.total
            && (|stats.patterns| + stats.rejected == stats.total <==> Distinct(Entries(scan.lines, true, libs)))
  {
    DedupShrinks(Entries(scan.lines, true, libs));
  }

  /** A read is clean exactly when no line was too long and every entry is in force. */
  lemma CleanExactly(scan: Scan, libs: Libs)
    ensures var stats := StatsOf(scan, libs);
            stats.fault.NoFault? <==>
            && scan.cut.None?
            && (forall line | line in scan.lines && IsEntry(TrimSpace(line)) :: TrimSpace(line) in stats.patterns)
  {
    var lines := scan.lines;
    forall line | line in lines && IsEntry(TrimSpace(line))
      ensures TrimSpace(line) in StatsOf(scan, libs).patterns <==> TrimSpace(line) !in Entries(lines, false, libs)
    {
      PatternsAreExact(scan, libs, TrimSpace(line));
      EntriesAre(lines, false, libs, TrimSpace(line));
    }
    var bad := Entries(lines, false, libs);
    RefusedLinesAscend(lines, libs);
    if bad != [] {
      EntriesAre(lines, false, libs, bad[0]);
    }
  }

  // ------------------------------------------------------------------- the readings

  datatype File = Unreadable(why: string) | Content(data: string)

  function FaultText(fault: Fault): Option<string> {
    match fault
    case NoFault => None
    case Cut(line) => Some("truncated at line " + Dec(line))
    case Refused(rejected, total, _, _) => Some(Dec(rejected) + " of " + Dec(total) + " patterns rejected")
  }

  /** readList: what was recovered, beside any error. */
  function ReadList(ref: FileRef, files: string -> File, libs: Libs): Reading {
    match files(ref.path)
    case Unreadable(why) => Reading([], Some(why))
    case Content(data) =>
      match ref.kind
      case Domains => Reading(Dedup(NamedDomains(ScanFile(data).lines)), FaultText(FaultOf(ScanFile(data).cut, [], 0)))
      case Patterns =>
        var stats := StatsOf(ScanFile(data), libs);
        Reading(stats.patterns, FaultText(stats.fault))
  }

  function DiskOf(files: string -> File, libs: Libs): Disk { ref => ReadList(ref, files, libs) }

  /** What a reference loses: the file, what is behind a line too long, or a pattern. */
  ghost predicate Short(ref: FileRef, files: string -> File, libs: Libs) {
    match files(ref.path)
    case Unreadable(_) => true
    case Content(data) =>
      || (exists i: nat :: Unbroken(data, i, MAX_LINE))
      || (ref.kind.Patterns? && exists line | line in ScanFile(data).lines :: IsEntry(TrimSpace(line)) && !InForce(TrimSpace(line), libs))
  }

  lemma ShortExactly(ref: FileRef, files: string -> File, libs: Libs)
    ensures ReadList(ref, files, libs).error.Some? <==> Short(ref, files, libs)
  {
    if files(ref.path).Content? {
      var data := files(ref.path).data;
      TruncatedExactly(data);
      if ref.kind.Patterns? {
        CleanExactly(ScanFile(data), libs);
        forall line | line in ScanFile(data).lines ensures IsEntry(TrimSpace(line)) ==>
          (TrimSpace(line) in StatsOf(ScanFile(data), libs).patterns <==> InForce(TrimSpace(line), libs))
        {
          PatternsAreExact(ScanFile(data), libs, TrimSpace(line));
        }
      }
    }
  }

  /** From bytes to policy: after the preload a path is reported degraded exactly when a
      reference to it is missing, cut short by a line too long, or has an entry refused. */
  lemma DegradedMeansShort(refs: seq<FileRef>, files: string -> File, libs: Libs, path: string)
    ensures path in Snapshot(refs, DiskOf(files, libs)).degraded <==>
            exists ref | ref in refs :: ref.path == path && Short(ref, files, libs)
  {
    DegradedIsComplete(refs, DiskOf(files, libs), path);
    forall ref | ref in refs ensures DiskOf(files, libs)(ref).error.Some? <==> Short(ref, files, libs) {
      ShortExactly(ref, files, libs);
    }
  }

  /** Whatever a short file turns out to hold once its owner has repaired it past the cut, or
      written it at all, what was read from it stays listed. */
  lemma ShortReadingsAreSubLists(ref: FileRef, before: string -> File, after: string -> File, libs: Libs, entry: string)
    requires after(ref.path).Content?
    requires before(ref.path).Content? ==>
             forall line | line in ScanFile(before(ref.path).data).lines :: line in ScanFile(after(ref.path).data).lines
    requires entry in ReadList(ref, before, libs).entries
    ensures entry in ReadList(ref, after, libs).entries
  {
    if ref.kind.Domains? {
      DomainsAreExact(ScanFile(before(ref.path).data), entry);
      DomainsAreExact(ScanFile(after(ref.path).data), entry);
    } else {
      PatternsAreExact(ScanFile(before(ref.path).data), libs, entry);
      PatternsAreExact(ScanFile(after(ref.path).data), libs, entry);
    }
  }

  /** A message claimed while a list is short is claimed by some rule once its owner has put
      the missing lines back, with file predicates under an even number of nots. */
  lemma ClaimsSurviveRepair(
      rules: seq<Rule>, refs: seq<FileRef>, before: string -> File, after: string -> File,
      msg: Message, ctx: Context)
    requires forall rule | rule in rules :: Polarity(rule.matcher, true)
    requires forall ref | ref in refs ::
               && after(ref.path).Content?
               && (before(ref.path).Content? ==>
                   forall line | line in ScanFile(before(ref.path).data).lines :: line in ScanFile(after(ref.path).data).lines)
    requires FirstMatch(rules, msg, ctx, Snapshot(refs, DiskOf(before, ctx.libs))).Some?
    ensures FirstMatch(rules, msg, ctx, Snapshot(refs, DiskOf(after, ctx.libs))).Some?
  {
    var short, whole := DiskOf(before, ctx.libs), DiskOf(after, ctx.libs);
    forall ref, e | ref in refs && e in short(ref).entries ensures e in whole(ref).entries {
      ShortReadingsAreSubLists(ref, before, after, ctx.libs, e);
    }
    ClaimsSurviveRecovery(rules, refs, short, whole, msg, ctx);
  }
}
