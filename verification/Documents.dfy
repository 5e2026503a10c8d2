/** The markdown document: its body made tidy, its layout, and its header read back
    (internal/sink/markdown.go, internal/mcpserver/record.go). */
module Documents {
  import opened Text
  import opened Attachments
  import opened TextLines

  // ------------------------------------------------------------------------- lines

  predicate IsNewline(c: char) { c == '\n' }

  /** What TrimRight cuts from a line: " \t\v\f\u00a0". */
  predicate IsRagged(c: char) { c == ' ' || c == '\t' || c == '\U{b}' || c == '\U{c}' || c == '\U{a0}' }

  /** strings.ReplaceAll(s, "\r\n", "\n"). */
  function JoinCRLF(s: string): string {
    if s == "" then ""
    else if HasPrefix(s, "\r\n") then "\n" + JoinCRLF(s[2..])
    else [s[0]] + JoinCRLF(s[1..])
  }

  /** strings.ReplaceAll(s, "\r", "\n"). */
  function ReplaceCR(s: string): string {
    if s == "" then "" else [if s[0] == '\r' then '\n' else s[0]] + ReplaceCR(s[1..])
  }

  function TrimmedLines(lines: seq<string>): (trimmed: seq<string>)
    ensures |trimmed| == |lines|
  {
    seq(|lines|, i requires 0 <= i < |lines| => TrimRight(lines[i], IsRagged))
  }

  function NormalBody(s: string): string {
    Trim(JoinLines(TrimmedLines(SplitLines(ReplaceCR(JoinCRLF(s))))), IsNewline)
  }

  method NormalizeBody(s: string) returns (body: string)
    ensures body == NormalBody(s)
  {
    var lines := SplitLines(ReplaceCR(JoinCRLF(s)));
    ghost var was := lines;
    var i := 0;
    while i < |lines|
      invariant 0 <= i <= |lines| == |was|
      invariant lines == TrimmedLines(was)[..i] + was[i..]
    {
      lines := lines[i := TrimRight(lines[i], IsRagged)];
      i := i + 1;
    }
    assert lines == TrimmedLines(was);
    body := Trim(JoinLines(lines), IsNewline);
  }

  // ------------------------------------------------------------------ tidy bodies

  /** No line ends in white space. */
  predicate NothingRagged(s: string) {
    forall i | 0 <= i < |s| && IsRagged(s[i]) :: i + 1 < |s| && s[i + 1] != '\n'
  }

  predicate Tidy(s: string) {
    && '\r' !in s
    && NothingRagged(s)
    && (s != "" ==> s[0] != '\n' && s[|s| - 1] != '\n')
  }

  lemma TrimmedCons(line: string, lines: seq<string>)
    ensures TrimmedLines([line] + lines) == [TrimRight(line, IsRagged)] + TrimmedLines(lines)
  {
  }

  lemma {:induction false} TrimmedJoinIsEven(lines: seq<string>)
    requires lines != [] && forall line | line in lines :: '\n' !in line && '\r' !in line
    ensures var t := JoinLines(TrimmedLines(lines)); NothingRagged(t) && '\r' !in t
  {
    var line, rest := lines[0], lines[1..];
    TrimRightDrops(line, IsRagged);
    var first := TrimRight(line, IsRagged);
    assert forall i | 0 <= i < |first| :: first[i] == line[i] && line[i] in line;
    assert lines == [line] + rest;
    TrimmedCons(line, rest);
    if rest != [] {
      TrimmedJoinIsEven(rest);
      JoinCons(first, TrimmedLines(rest));
      EvenConcat(first, JoinLines(TrimmedLines(rest)));
    }
  }

  lemma EvenConcat(a: string, b: string)
    requires NothingRagged(a) && NothingRagged(b) && '\r' !in a && '\r' !in b
    ensures NothingRagged(a + "\n" + b) && '\r' !in a + "\n" + b
  {
    var s := a + "\n" + b;
    forall i | 0 <= i < |s| ensures s[i] != '\r' && (IsRagged(s[i]) ==> i + 1 < |s| && s[i + 1] != '\n') {
      if i < |a| {
        assert s[i] == a[i];
      } else if i > |a| {
        assert s[i] == b[i - |a| - 1];
      }
    }
  }

  lemma {:induction false} TrimLeftCuts(s: string, p: char -> bool)
    ensures var r := TrimLeft(s, p); |r| <= |s| && forall i | 0 <= i < |s| - |r| :: p(s[i])
  {
    if s != "" && p(s[0]) {
      TrimLeftCuts(s[1..], p);
      assert forall i | 0 < i < |s| :: s[i] == s[1..][i - 1];
    }
  }

  lemma {:induction false} TrimRightCuts(s: string, p: char -> bool)
    ensures var r := TrimRight(s, p); |r| <= |s| && forall i | |r| <= i < |s| :: p(s[i])
  {
    if s != "" && p(s[|s| - 1]) {
      TrimRightCuts(s[..|s| - 1], p);
    }
  }

  /** Trimming cuts trimmable characters off both ends, and no others. */
  lemma TrimParts(s: string, p: char -> bool) returns (before: string, after: string)
    ensures s == before + Trim(s, p) + after && All(before, p) && All(after, p)
  {
    TrimLeftCuts(s, p);
    TrimLeftDrops(s, p);
    var left := TrimLeft(s, p);
    TrimRightCuts(left, p);
    TrimRightDrops(left, p);
    before, after := s[..|s| - |left|], left[|Trim(s, p)|..];
    assert s == before + left;
    assert left == Trim(s, p) + after;
  }

  lemma StretchStaysEven(before: string, r: string, after: string)
    requires NothingRagged(before + r + after) && '\r' !in before + r + after && All(after, IsNewline)
    ensures NothingRagged(r) && '\r' !in r
  {
    var t := before + r + after;
    assert forall i | 0 <= i < |r| :: r[i] == t[|before| + i] && t[|before| + i] in t;
    assert after != "" ==> IsNewline(after[0]) && t[|before| + |r|] == after[0];
    forall i | 0 <= i < |r| && IsRagged(r[i]) ensures i + 1 < |r| && r[i + 1] != '\n' {
      var k := |before| + i;
      assert IsRagged(t[k]) && k + 1 < |t| && t[k + 1] != '\n';
    }
  }

  lemma TrimmedStaysEven(t: string)
    requires NothingRagged(t) && '\r' !in t
    ensures Tidy(Trim(t, IsNewline))
  {
    var before, after := TrimParts(t, IsNewline);
    StretchStaysEven(before, Trim(t, IsNewline), after);
    var _ := TrimKeeps(t, IsNewline);
  }

  lemma {:induction false} NoCRLeft(s: string)
    ensures '\r' !in ReplaceCR(s)
  {
    if s != "" {
      NoCRLeft(s[1..]);
    }
  }

  lemma {:induction false} NoCRNothingToDo(s: string)
    requires '\r' !in s
    ensures JoinCRLF(s) == s && ReplaceCR(s) == s
  {
    if s != "" {
      assert s == [s[0]] + s[1..] && s[0] in s;
      NoCRNothingToDo(s[1..]);
    }
  }

  lemma EvenLine(line: string)
    requires NothingRagged(line)
    ensures TrimRight(line, IsRagged) == line
  {
  }

  lemma EvenFirstLine(s: string, nl: nat)
    requires NothingRagged(s) && nl < |s| && s[nl] == '\n'
    ensures TrimRight(s[..nl], IsRagged) == s[..nl] && NothingRagged(s[nl + 1..])
  {
    var rest := s[nl + 1..];
    assert forall i | 0 <= i < |rest| :: rest[i] == s[nl + 1 + i];
    if nl > 0 {
      assert s[..nl][nl - 1] == s[nl - 1];
    }
  }

  lemma EvenFirstLineStays(s: string, nl: nat)
    requires NothingRagged(s) && IndexOf(s, '\n') == nl
    requires TrimmedLines(SplitLines(s[nl + 1..])) == SplitLines(s[nl + 1..])
    ensures TrimmedLines(SplitLines(s)) == SplitLines(s)
  {
    SplitCons(s);
    EvenFirstLine(s, nl);
    TrimmedCons(s[..nl], SplitLines(s[nl + 1..]));
  }

  lemma EvenLineStays(line: string)
    requires NothingRagged(line)
    ensures TrimmedLines([line]) == [line]
  {
    EvenLine(line);
    TrimmedCons(line, []);
  }

  lemma {:induction false} EvenLinesStay(s: string)
    requires NothingRagged(s)
    ensures TrimmedLines(SplitLines(s)) == SplitLines(s)
    decreases |s|
  {
    var nl := IndexOf(s, '\n');
    if nl >= 0 {
      EvenFirstLine(s, nl);
      EvenLinesStay(s[nl + 1..]);
      EvenFirstLineStays(s, nl);
    } else {
      EvenLineStays(s);
    }
  }

  /** What the archive stores is tidy, and tidy text is stored as it is: normalizing twice is
      normalizing once. */
  lemma NormalExactly(s: string)
    ensures Tidy(NormalBody(s))
    ensures NormalBody(s) == s <==> Tidy(s)
  {
    var unified := ReplaceCR(JoinCRLF(s));
    NoCRLeft(JoinCRLF(s));
    var lines := SplitLines(unified);
    forall line | line in lines ensures '\n' !in line && '\r' !in line {
      LinesHoldNoEnd(unified, line);
    }
    TrimmedJoinIsEven(lines);
    TrimmedStaysEven(JoinLines(TrimmedLines(lines)));
    if Tidy(s) {
      NoCRNothingToDo(s);
      EvenLinesStay(s);
      JoinUndoesSplit(s);
      TrimIsIdentity(s, IsNewline);
    }
  }

  // ------------------------------------------------------------ nothing else is lost

  predicate IsVisible(c: char) { !IsRagged(c) && c != '\r' && c != '\n' }

  function Visible(s: string): string {
    if s == "" then "" else (if IsVisible(s[0]) then [s[0]] else "") + Visible(s[1..])
  }

  lemma {:induction false} VisibleConcat(a: string, b: string)
    ensures Visible(a + b) == Visible(a) + Visible(b)
  {
    if a == "" {
      assert a + b == b;
    } else {
      assert (a + b)[1..] == a[1..] + b && (a + b)[0] == a[0];
      VisibleConcat(a[1..], b);
      Assoc(if IsVisible(a[0]) then [a[0]] else "", Visible(a[1..]), Visible(b));
    }
  }

  lemma {:induction false} VisibleNone(s: string)
    requires forall i | 0 <= i < |s| :: !IsVisible(s[i])
    ensures Visible(s) == ""
  {
    if s != "" {
      VisibleNone(s[1..]);
    }
  }

  lemma {:induction false} VisibleUnified(s: string)
    ensures Visible(JoinCRLF(s)) == Visible(s) && Visible(ReplaceCR(s)) == Visible(s)
  {
    if s != "" {
      VisibleUnified(s[1..]);
      VisibleConcat([if s[0] == '\r' then '\n' else s[0]], ReplaceCR(s[1..]));
      if HasPrefix(s, "\r\n") {
        VisibleUnified(s[2..]);
        assert s == "\r\n" + s[2..];
        VisibleConcat("\r\n", s[2..]);
        VisibleConcat("\n", JoinCRLF(s[2..]));
        VisibleNone("\r\n");
        VisibleNone("\n");
      } else {
        VisibleConcat([s[0]], JoinCRLF(s[1..]));
      }
    }
  }

  lemma VisibleTrimRight(line: string)
    ensures Visible(TrimRight(line, IsRagged)) == Visible(line)
  {
    TrimRightCuts(line, IsRagged);
    TrimRightDrops(line, IsRagged);
    var r := TrimRight(line, IsRagged);
    assert line == r + line[|r|..];
    VisibleConcat(r, line[|r|..]);
    VisibleNone(line[|r|..]);
  }

  lemma {:induction false} VisibleTrimmed(lines: seq<string>)
    ensures Visible(JoinLines(TrimmedLines(lines))) == Visible(JoinLines(lines))
  {
    if lines != [] {
      var line, rest := lines[0], lines[1..];
      assert lines == [line] + rest;
      TrimmedCons(line, rest);
      VisibleTrimRight(line);
      if rest != [] {
        VisibleTrimmed(rest);
        var trimmed := TrimRight(line, IsRagged);
        JoinCons(trimmed, TrimmedLines(rest));
        JoinCons(line, rest);
        VisibleConcat(trimmed + "\n", JoinLines(TrimmedLines(rest)));
        VisibleConcat(line + "\n", JoinLines(rest));
        VisibleConcat(trimmed, "\n");
        VisibleConcat(line, "\n");
      }
    }
  }

  /** Normalizing a body keeps every visible character of it, in order. */
  lemma NormalKeepsText(s: string)
    ensures Visible(NormalBody(s)) == Visible(s)
  {
    VisibleUnified(s);
    VisibleUnified(JoinCRLF(s));
    var unified := ReplaceCR(JoinCRLF(s));
    JoinUndoesSplit(unified);
    VisibleTrimmed(SplitLines(unified));
    var t := JoinLines(TrimmedLines(SplitLines(unified)));
    var before, after := TrimParts(t, IsNewline);
    VisibleConcat(before + Trim(t, IsNewline), after);
    VisibleConcat(before, Trim(t, IsNewline));
    VisibleNone(before);
    VisibleNone(after);
  }

  // ------------------------------------------------------------------- the document

  const NO_BODY_PLACEHOLDER := "*(no body)*"
  const ATTACHMENTS_HEADING := "## Attachments"
  const FENCE := "\n---\n"

  function Link(linkDir: string, f: AttachmentFile): string {
    "- [" + f.display + "](" + linkDir + "/" + f.name + ")\n"
  }

  function Links(linkDir: string, files: seq<AttachmentFile>): string {
    if files == [] then "" else Links(linkDir, files[..|files| - 1]) + Link(linkDir, files[|files| - 1])
  }

  /** What follows the header's fence. */
  function AfterHeader(body: string, linkDir: string, files: seq<AttachmentFile>): string {
    "\n" + body + "\n" + if files == [] then "" else "\n" + ATTACHMENTS_HEADING + "\n\n" + Links(linkDir, files)
  }

  function Document(front: string, body: string, linkDir: string, files: seq<AttachmentFile>): string {
    "---\n" + front + "---\n" + AfterHeader(body, linkDir, files)
  }

  lemma LinksStep(linkDir: string, files: seq<AttachmentFile>, f: AttachmentFile)
    ensures Links(linkDir, files + [f]) == Links(linkDir, files) + Link(linkDir, f)
  {
    assert (files + [f])[..|files|] == files;
  }

  /** render, given the encoded frontmatter and the body. */
  method Render(front: string, body: string, linkDir: string, files: seq<AttachmentFile>) returns (doc: string)
    ensures doc == Document(front, body, linkDir, files)
  {
    ghost var head := "---\n" + front + "---\n";
    doc := "---\n" + front + "---\n\n" + body + "\n";
    assert doc == head + ("\n" + body + "\n");
    if |files| > 0 {
      doc := doc + "\n" + ATTACHMENTS_HEADING + "\n\n";
      ghost var before := "\n" + body + "\n" + ("\n" + ATTACHMENTS_HEADING + "\n\n");
      assert doc == head + before;
      for i := 0 to |files|
        invariant doc == head + (before + Links(linkDir, files[..i]))
      {
        assert files[..i + 1] == files[..i] + [files[i]];
        LinksStep(linkDir, files[..i], files[i]);
        Assoc(before, Links(linkDir, files[..i]), Link(linkDir, files[i]));
        Assoc(head, before + Links(linkDir, files[..i]), Link(linkDir, files[i]));
        doc := doc + Link(linkDir, files[i]);
      }
      assert files[..|files|] == files;
      Assoc("\n" + body + "\n", "\n" + ATTACHMENTS_HEADING + "\n\n", Links(linkDir, files));
    }
  }

  predicate OccursAt(s: string, i: nat, t: string) { i + |t| <= |s| && s[i..i + |t|] == t }

  ghost predicate Contains(s: string, t: string) { exists i: nat :: OccursAt(s, i, t) }

  lemma OccursShift(s: string, i: nat, t: string)
    requires s != ""
    ensures OccursAt(s[1..], i, t) <==> OccursAt(s, i + 1, t)
  {
    if i + 1 + |t| <= |s| {
      assert s[1..][i..i + |t|] == s[i + 1..i + 1 + |t|];
    }
  }

  /** strings.Index. */
  function Index(s: string, t: string): (r: int)
    ensures -1 <= r <= |s|
    ensures r >= 0 ==> OccursAt(s, r, t)
    ensures forall i: nat | i < r || r < 0 :: !OccursAt(s, i, t)
    decreases |s|
  {
    if HasPrefix(s, t) then
      assert OccursAt(s, 0, t);
      0
    else if s == "" then -1
    else
      var k := Index(s[1..], t);
      assert forall i: nat :: OccursAt(s[1..], i, t) <==> OccursAt(s, i + 1, t) by {
        forall i: nat ensures OccursAt(s[1..], i, t) <==> OccursAt(s, i + 1, t) { OccursShift(s, i, t); }
      }
      assert forall i: nat | i > 0 && OccursAt(s, i, t) :: OccursAt(s[1..], i - 1, t);
      if k < 0 then -1 else k + 1
  }

  /** splitFrontmatter. */
  function SplitFrontmatter(doc: string): Option<(string, string)> {
    if !HasPrefix(doc, "---\n") then None
    else
      var rest := doc[4..];
      var end := Index(rest, FENCE);
      if end >= 0 then Some((rest[..end], rest[end + |FENCE|..]))
      else if HasSuffix(rest, "\n---") then Some((rest[..|rest| - 4], ""))
      else None
  }

  lemma OccursChar(s: string, i: nat, t: string, d: nat)
    requires OccursAt(s, i, t) && d < |t|
    ensures s[i + d] == t[d]
  {
    assert s[i..i + |t|][d] == t[d];
  }

  /** Below the end of the header the document and the header hold the same fences: one that
      overlaps the real one from before would need a dash where the real one has a line end. */
  lemma FencesAreTheHeaders(f: string, tail: string, k: nat)
    requires k < |f|
    ensures OccursAt(f + FENCE + tail, k, FENCE) <==> OccursAt(f + "\n", k, FENCE)
  {
    var rest, front := f + FENCE + tail, f + "\n";
    assert rest[..|front|] == front;
    if k + 5 <= |front| {
      assert rest[k..k + 5] == rest[..|front|][k..k + 5];
    } else if OccursAt(rest, k, FENCE) {
      OccursChar(rest, k, FENCE, |f| - k);
    }
  }

  lemma FirstFence(f: string, tail: string)
    ensures var rest := f + FENCE + tail;
            && 0 <= Index(rest, FENCE) <= |f|
            && (Index(rest, FENCE) == |f| <==> !Contains(f + "\n", FENCE))
  {
    var rest := f + FENCE + tail;
    assert rest[|f|..|f| + 5] == FENCE;
    assert OccursAt(rest, |f|, FENCE);
    var k := Index(rest, FENCE);
    if k < |f| {
      FencesAreTheHeaders(f, tail, k);
    }
    if i: nat :| OccursAt(f + "\n", i, FENCE) {
      FencesAreTheHeaders(f, tail, i);
    }
  }

  lemma SplitAt(rest: string)
    ensures var end := Index(rest, FENCE);
            end >= 0 ==> SplitFrontmatter("---\n" + rest) == Some((rest[..end], rest[end + |FENCE|..]))
  {
    var doc := "---\n" + rest;
    assert doc[..4] == "---\n" && doc[4..] == rest;
  }

  lemma FenceStandsAfter(header: string, tail: string)
    ensures "---\n" + (header + "\n") + "---\n" + tail == "---\n" + (header + FENCE + tail)
  {
    assert header + "\n" + "---\n" == header + FENCE;
  }

  /** What the sink writes, the reader splits at the fence the sink wrote, whatever the body
      holds, exactly when no line of the header but the first reads as a fence. */
  lemma DocumentReadsBack(header: string, body: string, linkDir: string, files: seq<AttachmentFile>)
    ensures SplitFrontmatter(Document(header + "\n", body, linkDir, files)) == Some((header, AfterHeader(body, linkDir, files)))
            <==> !Contains(header + "\n", FENCE)
  {
    var tail := AfterHeader(body, linkDir, files);
    var rest := header + FENCE + tail;
    FenceStandsAfter(header, tail);
    FirstFence(header, tail);
    SplitAt(rest);
    var end := Index(rest, FENCE);
    if end == |header| {
      assert rest[..end] == header && rest[end + |FENCE|..] == tail;
    } else {
      assert |rest[..end]| < |header|;
    }
  }

  /** renderBody: the text part, else the HTML part converted, else the placeholder. */
  function RenderedBody(text: string, html: string, convert: string -> Option<string>): Option<string> {
    if NormalBody(text) != "" then Some(NormalBody(text))
    else if TrimSpace(html) == "" then Some(NO_BODY_PLACEHOLDER)
    else if convert(html).None? then None
    else
      var body := NormalBody(convert(html).value);
      Some(if body != "" then body else NO_BODY_PLACEHOLDER)
  }

  lemma {:induction false} TrimNewlines(s: string)
    ensures TrimSpace("\n" + s + "\n") == TrimSpace(s)
  {
    var t := "\n" + s + "\n";
    assert TrimLeft(t, IsSpace) == TrimLeft(s + "\n", IsSpace) by {
      assert t[1..] == s + "\n";
    }
    TrimLeftAppend(s);
  }

  lemma {:induction false} TrimLeftAppend(s: string)
    ensures TrimRight(TrimLeft(s + "\n", IsSpace), IsSpace) == TrimRight(TrimLeft(s, IsSpace), IsSpace)
  {
    if s == "" {
      assert s + "\n" == "\n" && "\n"[1..] == "";
    } else if IsSpace(s[0]) {
      assert (s + "\n")[1..] == s[1..] + "\n";
      TrimLeftAppend(s[1..]);
    } else {
      assert (s + "\n")[..|s|] == s;
    }
  }

  lemma EndsDecideTrim(s: string)
    requires s != ""
    ensures TrimSpace(s) == s <==> !IsSpace(s[0]) && !IsSpace(s[|s| - 1])
  {
    var _ := TrimKeeps(s, IsSpace);
    if !IsSpace(s[0]) && !IsSpace(s[|s| - 1]) {
      TrimIsIdentity(s, IsSpace);
    }
  }

  lemma BodyIsTidy(text: string, html: string, convert: string -> Option<string>)
    requires RenderedBody(text, html, convert).Some?
    ensures var body := RenderedBody(text, html, convert).value; body != "" && Tidy(body)
  {
    NormalExactly(text);
    if convert(html).Some? {
      NormalExactly(convert(html).value);
    }
  }

  /** A message without attachments: its body, never empty, is read back as it was stored
      exactly when it neither begins nor ends with white space; an indented first line is
      read back without its indentation. */
  lemma BodyReadsBack(header: string, text: string, html: string, convert: string -> Option<string>, linkDir: string)
    requires !Contains(header + "\n", FENCE) && RenderedBody(text, html, convert).Some?
    ensures var body := RenderedBody(text, html, convert).value;
            var split := SplitFrontmatter(Document(header + "\n", body, linkDir, []));
            && body != "" && Tidy(body)
            && split.Some? && split.value.0 == header
            && TrimSpace(split.value.1) == TrimSpace(body)
            && (TrimSpace(split.value.1) == body <==> !IsSpace(body[0]) && !IsSpace(body[|body| - 1]))
  {
    var body := RenderedBody(text, html, convert).value;
    BodyIsTidy(text, html, convert);
    DocumentReadsBack(header, body, linkDir, []);
    assert AfterHeader(body, linkDir, []) == "\n" + body + "\n";
    TrimNewlines(body);
    EndsDecideTrim(body);
  }

  /** The smallest loss of indentation: a body of one indented letter. */
  lemma IndentationIsLost(convert: string -> Option<string>, linkDir: string)
    ensures RenderedBody(" x", "", convert) == Some(" x")
    ensures var split := SplitFrontmatter(Document("a" + "\n", " x", linkDir, [])); split.Some? && TrimSpace(split.value.1) != " x"
  {
    TidyIsRendered(" x", convert);
    NothingShort("a");
    BodyReadsBack("a", " x", "", convert, linkDir);
  }

  lemma TidyIsRendered(body: string, convert: string -> Option<string>)
    requires Tidy(body) && body != ""
    ensures RenderedBody(body, "", convert) == Some(body)
  {
    NormalExactly(body);
  }

  lemma NothingShort(header: string)
    requires |header| < 4
    ensures !Contains(header + "\n", FENCE)
  {
  }
}
