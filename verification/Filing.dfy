/** One message filed as markdown, from its parts to the disk: the names its attachments get, the
    document that links them, and the files that are there (internal/sink/markdown.go). */
module Filing {
  import opened Text
  import opened TextLines
  import opened Mail
  import opened Attachments
  import opened Documents
  import SinkNames
  import Sinks

  // ---------------------------------------------------------------- where the files go

  function Names(files: seq<AttachmentFile>): (names: seq<string>)
    ensures |names| == |files| && forall i | 0 <= i < |files| :: names[i] == files[i].name
  {
    seq(|files|, i requires 0 <= i < |files| => files[i].name)
  }

  /** The names chosen for any attachments whatsoever keep a message's files apart. */
  lemma ChosenSpotIsApart(filenames: seq<string>, files: seq<AttachmentFile>, dest: string, year: string, month: string, base: string)
    requires AllChosen(filenames, files)
    ensures Sinks.MarkdownSpot(dest, year, month, base, Names(files)).Apart()
  {
    forall i, j | 0 <= i < j < |files| ensures files[i].name != files[j].name {
      NamesAreDistinct(filenames, files, i, j);
    }
    Sinks.LayoutIsApart(dest, year, month, base, Names(files));
  }

  // ------------------------------------------------------------- reading the links back

  const HEADING := "\n" + ATTACHMENTS_HEADING + "\n\n"

  /** The target of a line that is a link in a list. */
  function TargetOf(line: string): Option<string> {
    var k := Index(line, "](");
    if HasPrefix(line, "- [") && HasSuffix(line, ")") && 0 <= k && k + 2 < |line| then Some(line[k + 2..|line| - 1]) else None
  }

  function TargetsIn(lines: seq<string>): seq<string> {
    if lines == [] then []
    else (if TargetOf(lines[0]).Some? then [TargetOf(lines[0]).value] else []) + TargetsIn(lines[1..])
  }

  /** What a document links to: the links behind its last attachments heading. */
  ghost predicate LinksTo(doc: string, targets: seq<string>) {
    exists at: nat :: IsLastHeading(doc, at) && targets == TargetsIn(SplitLines(doc[at + |HEADING|..]))
  }

  ghost predicate IsLastHeading(doc: string, at: nat) {
    OccursAt(doc, at, HEADING) && forall i: nat | i > at :: !OccursAt(doc, i, HEADING)
  }

  function LinkLine(linkDir: string, f: AttachmentFile): string { "- [" + f.display + "](" + linkDir + "/" + f.name + ")" }

  function LinkLines(linkDir: string, files: seq<AttachmentFile>): (lines: seq<string>)
    ensures |lines| == |files| && forall i | 0 <= i < |files| :: lines[i] == LinkLine(linkDir, files[i])
  {
    seq(|files|, i requires 0 <= i < |files| => LinkLine(linkDir, files[i]))
  }

  function LinkTargets(linkDir: string, files: seq<AttachmentFile>): (targets: seq<string>)
    ensures |targets| == |files| && forall i | 0 <= i < |files| :: targets[i] == linkDir + "/" + files[i].name
  {
    seq(|files|, i requires 0 <= i < |files| => linkDir + "/" + files[i].name)
  }

  lemma {:induction false} EndedSnoc(lines: seq<string>, last: string)
    ensures Ended(lines + [last]) == Ended(lines) + (last + "\n")
  {
    if lines == [] {
      assert [last][1..] == [] && [] + [last] == [last];
    } else {
      assert lines + [last] == [lines[0]] + (lines[1..] + [last]);
      EndedSnoc(lines[1..], last);
      Assoc(lines[0] + "\n", Ended(lines[1..]), last + "\n");
    }
  }

  lemma {:induction false} LinksAreLines(linkDir: string, files: seq<AttachmentFile>)
    ensures Links(linkDir, files) == Ended(LinkLines(linkDir, files))
  {
    if files != [] {
      var front, last := files[..|files| - 1], files[|files| - 1];
      LinksAreLines(linkDir, front);
      EndedSnoc(LinkLines(linkDir, front), LinkLine(linkDir, last));
      assert LinkLines(linkDir, files) == LinkLines(linkDir, front) + [LinkLine(linkDir, last)];
    }
  }

  /** Text that can stand in a link without being taken for part of it. */
  predicate IsPlain(c: char) { IsSafe(c) || c == '/' }

  lemma TargetReadsBack(linkDir: string, f: AttachmentFile)
    requires All(f.display, IsSafe)
    ensures TargetOf(LinkLine(linkDir, f)) == Some(linkDir + "/" + f.name)
  {
    var line, head, target := LinkLine(linkDir, f), "- [" + f.display, linkDir + "/" + f.name;
    assert line == head + ("](" + target + ")");
    assert line[|head|..|head| + 2] == "](";
    assert OccursAt(line, |head|, "](");
    forall i: nat | i < |head| ensures !OccursAt(line, i, "](") {
      assert line[i] == head[i] && (i >= 3 ==> head[i] == f.display[i - 3]);
      if OccursAt(line, i, "](") {
        OccursChar(line, i, "](", 0);
      }
    }
    assert line[|head| + 2..|line| - 1] == target;
  }

  lemma {:induction false} TargetsReadBack(linkDir: string, files: seq<AttachmentFile>)
    requires forall f | f in files :: All(f.display, IsSafe)
    ensures TargetsIn(LinkLines(linkDir, files) + [""]) == LinkTargets(linkDir, files)
  {
    var lines := LinkLines(linkDir, files) + [""];
    if files == [] {
      assert lines == [""] && lines[1..] == [];
    } else {
      TargetReadsBack(linkDir, files[0]);
      TargetsReadBack(linkDir, files[1..]);
      assert lines[1..] == LinkLines(linkDir, files[1..]) + [""];
      assert LinkTargets(linkDir, files) == [linkDir + "/" + files[0].name] + LinkTargets(linkDir, files[1..]);
    }
  }

  lemma LinkLineIsOne(linkDir: string, f: AttachmentFile, c: char)
    requires All(linkDir, IsPlain) && All(f.display, IsSafe) && All(f.name, IsSafe) && c in "\n#"
    ensures c !in LinkLine(linkDir, f)
  {
  }

  lemma {:induction false} NotInEnded(lines: seq<string>, c: char)
    requires c != '\n' && forall line | line in lines :: c !in line
    ensures c !in Ended(lines)
  {
    if lines != [] {
      NotInEnded(lines[1..], c);
    }
  }

  /** Behind the heading the sink wrote there is no other. */
  lemma HeadingIsLast(x: string, links: string)
    requires '#' !in links
    ensures IsLastHeading(x + HEADING + links, |x|)
  {
    var doc := x + HEADING + links;
    assert doc[|x|..|x| + |HEADING|] == HEADING;
    forall i: nat | i > |x| ensures !OccursAt(doc, i, HEADING) {
      var k := i + 1 - |x|;
      if k < |HEADING| {
        assert doc[i] == HEADING[k - 1] && doc[i + 1] == HEADING[k];
      } else if k < |HEADING| + |links| {
        assert doc[i + 1] == links[k - |HEADING|] && links[k - |HEADING|] in links;
      }
      if OccursAt(doc, i, HEADING) {
        OccursChar(doc, i, HEADING, 1);
        OccursChar(doc, i, HEADING, 0);
      }
    }
  }

  ghost predicate Linkable(linkDir: string, files: seq<AttachmentFile>) {
    All(linkDir, IsPlain) && forall f | f in files :: All(f.display, IsSafe) && All(f.name, IsSafe)
  }

  lemma LinksReadBack(linkDir: string, files: seq<AttachmentFile>)
    requires Linkable(linkDir, files)
    ensures '#' !in Links(linkDir, files) && TargetsIn(SplitLines(Links(linkDir, files))) == LinkTargets(linkDir, files)
  {
    var lines := LinkLines(linkDir, files);
    LinksAreLines(linkDir, files);
    forall line, c | line in lines && c in "\n#" ensures c !in line {
      var i :| 0 <= i < |files| && lines[i] == line;
      LinkLineIsOne(linkDir, files[i], c);
    }
    NotInEnded(lines, '#');
    SplitEnded(lines, "");
    assert Ended(lines) + "" == Ended(lines) && SplitLines("") == [""];
    TargetsReadBack(linkDir, files);
  }

  /** Whatever the header and the body hold, the document links to its attachments and to nothing else. */
  lemma DocumentLinks(front: string, body: string, linkDir: string, files: seq<AttachmentFile>)
    requires Linkable(linkDir, files) && files != []
    ensures LinksTo(Document(front, body, linkDir, files), LinkTargets(linkDir, files))
  {
    var x, links := "---\n" + front + "---\n" + ("\n" + body + "\n"), Links(linkDir, files);
    var doc := Document(front, body, linkDir, files);
    assert doc == x + HEADING + links;
    LinksReadBack(linkDir, files);
    HeadingIsLast(x, links);
    assert doc[|x| + |HEADING|..] == links;
  }

  // ------------------------------------------------------------------- storing a message

  function Contents(msg: Message): (contents: seq<Bytes>)
    ensures |contents| == |msg.attachments| && forall i | 0 <= i < |contents| :: contents[i] == msg.attachments[i].content
  {
    seq(|msg.attachments|, i requires 0 <= i < |msg.attachments| => msg.attachments[i].content)
  }

  function LinkDir(msg: Message, libs: SinkNames.Libs): string { SinkNames.Basename(msg, libs) + ".attachments" }

  function SpotOf(msg: Message, dest: string, year: string, month: string, files: seq<AttachmentFile>, libs: SinkNames.Libs): Sinks.Spot {
    Sinks.MarkdownSpot(dest, year, month, SinkNames.Basename(msg, libs), Names(files))
  }

  lemma ChosenIsLinkable(msg: Message, files: seq<AttachmentFile>, libs: SinkNames.Libs)
    requires AllChosen(Filenames(msg), files)
    ensures Linkable(LinkDir(msg, libs), files)
  {
    SinkNames.BasenameShape(msg, libs);
    forall f | f in files ensures All(f.display, IsSafe) && All(f.name, IsSafe) {
      var i :| 0 <= i < |files| && files[i] == f;
      assert Chosen(files[..i], Filenames(msg)[i], f);
      ChosenDisplayIsTame(files[..i], Filenames(msg)[i], f, |files|);
      NamesAreSafe(Filenames(msg), files, i);
    }
  }

  /** Every link of the document, joined onto the directory the document is in, is one of its files. */
  lemma LinksAreFiles(msg: Message, dest: string, year: string, month: string, files: seq<AttachmentFile>, libs: SinkNames.Libs, i: nat)
    requires i < |files|
    ensures var spot := SpotOf(msg, dest, year, month, files, libs);
            spot.month + "/" + LinkTargets(LinkDir(msg, libs), files)[i] == spot.names[i]
  {
    var spot := SpotOf(msg, dest, year, month, files, libs);
    Assoc(spot.month + "/", LinkDir(msg, libs), "/" + files[i].name);
    assert LinkDir(msg, libs) + "/" + files[i].name == LinkDir(msg, libs) + ("/" + files[i].name);
    assert spot.dir + "/" + files[i].name == spot.dir + ("/" + files[i].name);
  }

  /** The document is there; it links to as many files as the message has attachments, and to nothing
      else; and each of them is there, beside it, with the attachment's content. */
  ghost predicate Filed(nodes: map<string, Sinks.Node>, path: string, dir: string, doc: string, encode: string -> Bytes, msg: Message) {
    && path in nodes && nodes[path] == Sinks.File(encode(doc))
    && (msg.attachments != [] ==> exists targets :: LinksTo(doc, targets) && Reach(nodes, dir, targets, msg))
  }

  ghost predicate Reach(nodes: map<string, Sinks.Node>, dir: string, targets: seq<string>, msg: Message) {
    && |targets| == |msg.attachments|
    && forall i | 0 <= i < |targets| ::
         dir + "/" + targets[i] in nodes && nodes[dir + "/" + targets[i]] == Sinks.File(msg.attachments[i].content)
  }

  lemma LinksReach(nodes: map<string, Sinks.Node>, msg: Message, dest: string, year: string, month: string,
                   files: seq<AttachmentFile>, libs: SinkNames.Libs)
    requires |files| == |msg.attachments| && Sinks.AttachmentsThere(nodes, SpotOf(msg, dest, year, month, files, libs), Contents(msg))
    ensures Reach(nodes, SpotOf(msg, dest, year, month, files, libs).month, LinkTargets(LinkDir(msg, libs), files), msg)
  {
    var spot, targets := SpotOf(msg, dest, year, month, files, libs), LinkTargets(LinkDir(msg, libs), files);
    forall i | 0 <= i < |targets|
      ensures spot.month + "/" + targets[i] in nodes && nodes[spot.month + "/" + targets[i]] == Sinks.File(msg.attachments[i].content)
    {
      LinksAreFiles(msg, dest, year, month, files, libs, i);
    }
  }

  lemma StoredIsFiled(nodes: map<string, Sinks.Node>, msg: Message, dest: string, year: string, month: string,
                      files: seq<AttachmentFile>, libs: SinkNames.Libs, front: string, body: string, encode: string -> Bytes)
    requires AllChosen(Filenames(msg), files)
    requires var spot := SpotOf(msg, dest, year, month, files, libs);
             && spot.path in nodes && nodes[spot.path] == Sinks.File(encode(Document(front, body, LinkDir(msg, libs), files)))
             && Sinks.AttachmentsThere(nodes, spot, Contents(msg))
    ensures var spot := SpotOf(msg, dest, year, month, files, libs);
            Filed(nodes, spot.path, spot.month, Document(front, body, LinkDir(msg, libs), files), encode, msg)
  {
    var spot, targets := SpotOf(msg, dest, year, month, files, libs), LinkTargets(LinkDir(msg, libs), files);
    if msg.attachments != [] {
      ChosenIsLinkable(msg, files, libs);
      DocumentLinks(front, body, LinkDir(msg, libs), files);
      LinksReach(nodes, msg, dest, year, month, files, libs);
    }
  }

  /** MarkdownSink.Store, from the message to the disk. */
  method Store(disk: Sinks.Disk, msg: Message, dest: string, year: string, month: string, libs: SinkNames.Libs,
               front: string, body: string, encode: string -> Bytes)
    returns (skipped: bool, err: bool, files: seq<AttachmentFile>)
    requires disk.TempsFresh()
    requires forall files | AllChosen(Filenames(msg), files) ::
               Sinks.Documented(disk.nodes, SpotOf(msg, dest, year, month, files, libs), Contents(msg))
    modifies disk
    ensures AllChosen(Filenames(msg), files)
    ensures var spot, doc := SpotOf(msg, dest, year, month, files, libs), Document(front, body, LinkDir(msg, libs), files);
            && (!err && !skipped ==> spot.path !in old(disk.nodes) && Filed(disk.nodes, spot.path, spot.month, doc, encode, msg))
            && (skipped ==> spot.path in old(disk.nodes) && Sinks.Same(old(disk.nodes), disk.nodes, spot.path))
  {
    files := AttachmentFiles(Filenames(msg));
    ghost var spot := SpotOf(msg, dest, year, month, files, libs);
    ChosenSpotIsApart(Filenames(msg), files, dest, year, month, SinkNames.Basename(msg, libs));
    var doc := Render(front, body, LinkDir(msg, libs), files);
    skipped, err := disk.StoreMarkdown(SpotOf(msg, dest, year, month, files, libs), encode(doc), Contents(msg));
    if !err && !skipped {
      StoredIsFiled(disk.nodes, msg, dest, year, month, files, libs, front, body, encode);
    }
  }
}
