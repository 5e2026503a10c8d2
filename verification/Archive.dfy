/** The archive reader's index over delivered files (internal/mcpserver/archive.go, record.go). */
module Archive {
  import opened Text
  import opened Seqs
  import opened Mail
  import opened FilterEngine
  import opened SinkNames
  import Attachments

  const MAX_FILE_BYTES := 67108864

  /** What Lstat says of a file, and its content. */
  datatype Stat = Stat(size: nat, modTime: int, data: Bytes)

  /** What a rendering's content says of its message. */
  datatype Meta = Meta(date: int, threadId: string, source: string, from: string, subject: string)

  datatype FileRecord = FileRecord(
    path: string, format: Format, size: nat, modTime: int, id: string, rule: string, meta: Meta)

  /** One stored message across its renderings. */
  datatype Key = Key(rule: string, id: string)

  function KeyOf(r: FileRecord): Key { Key(r.rule, r.id) }

  datatype Entry = Entry(size: nat, modTime: int, rec: FileRecord)

  /** One file the walk comes to, and the rule whose root it was found under. */
  datatype Visit = Visit(path: string, rule: string)

  /** Reading a rendering's content, given the file's directory as it is. */
  type Reader = (string, Format, Stat) -> Option<Meta>

  /** The files the walk can stat. */
  type Tree = map<string, Stat>

  // --------------------------------------------------------------------- one file

  function FormatOf(path: string): Option<Format> {
    var ext := ToLower(ExtOf(Base(path)));
    if ext == ".md" then Some(Markdown) else if ext == ".eml" then Some(Eml) else None
  }

  /** parseFile: None for a file that is skipped. */
  function ParseFile(v: Visit, stat: Stat, read: Reader): Option<FileRecord> {
    if stat.size > MAX_FILE_BYTES then None
    else
      var id, format := MessageIDFromPath(v.path), FormatOf(v.path);
      if id.None? || format.None? then None
      else
        var meta := read(v.path, format.value, stat);
        if meta.None? then None
        else Some(FileRecord(v.path, format.value, stat.size, stat.modTime, id.value, v.rule, meta.value))
  }

  /** The record a visit yields: the cached one while size and time are unchanged, whatever rule
      the visit is under, and else a fresh parse. */
  function Yield(cache: map<string, Entry>, v: Visit, tree: Tree, read: Reader): Option<FileRecord> {
    if v.path !in tree then None
    else
      var stat := tree[v.path];
      if v.path in cache && cache[v.path].size == stat.size && cache[v.path].modTime == stat.modTime then Some(cache[v.path].rec)
      else ParseFile(v, stat, read)
  }

  // --------------------------------------------------------------------- the walk

  /** Every record the walk yields, in order. */
  function Yields(cache: map<string, Entry>, visits: seq<Visit>, tree: Tree, read: Reader): seq<FileRecord> {
    if visits == [] then []
    else
      var before, last := Yields(cache, visits[..|visits| - 1], tree, read), Yield(cache, visits[|visits| - 1], tree, read);
      if last.None? then before else before + [last.value]
  }

  /** The cache the walk leaves: one entry a path, its last visit's. */
  function Fresh(cache: map<string, Entry>, visits: seq<Visit>, tree: Tree, read: Reader): map<string, Entry> {
    if visits == [] then map[]
    else
      var before, v := Fresh(cache, visits[..|visits| - 1], tree, read), visits[|visits| - 1];
      var last := Yield(cache, v, tree, read);
      if last.None? then before else before[v.path := Entry(tree[v.path].size, tree[v.path].modTime, last.value)]
  }

  /** The renderings of each message, in walk order. */
  function ByMessage(recs: seq<FileRecord>): map<Key, seq<FileRecord>> {
    if recs == [] then map[]
    else
      var before, last := ByMessage(recs[..|recs| - 1]), recs[|recs| - 1];
      before[KeyOf(last) := (if KeyOf(last) in before then before[KeyOf(last)] else []) + [last]]
  }

  class Index {
    const read: Reader
    var cache: map<string, Entry>

    constructor (read: Reader)
      ensures this.read == read && cache == map[]
    {
      this.read := read;
      cache := map[];
    }

    /** One file the walk comes to. */
    method Take(v: Visit, tree: Tree) returns (rec: Option<FileRecord>)
      ensures rec == Yield(cache, v, tree, read)
    {
      if v.path !in tree {
        return None;
      }
      var stat := tree[v.path];
      if v.path in cache && cache[v.path].size == stat.size && cache[v.path].modTime == stat.modTime {
        return Some(cache[v.path].rec);
      }
      rec := ParseFile(v, stat, read);
    }

    /** The walk of one call to Index. */
    method Walk(visits: seq<Visit>, tree: Tree) returns (byMessage: map<Key, seq<FileRecord>>)
      modifies this
      ensures byMessage == ByMessage(Yields(old(cache), visits, tree, read))
      ensures cache == Fresh(old(cache), visits, tree, read)
    {
      var kept: map<string, Entry> := map[];
      byMessage := map[];
      var i := 0;
      while i < |visits|
        invariant 0 <= i <= |visits| && cache == old(cache)
        invariant kept == Fresh(cache, visits[..i], tree, read)
        invariant byMessage == ByMessage(Yields(cache, visits[..i], tree, read))
      {
        assert visits[..i + 1][..i] == visits[..i];
        ghost var before := Yields(cache, visits[..i], tree, read);
        var v := visits[i];
        var taken := Take(v, tree);
        if taken.Some? {
          var rec := taken.value;
          assert (before + [rec])[..|before|] == before;
          kept := kept[v.path := Entry(tree[v.path].size, tree[v.path].modTime, rec)];
          byMessage := byMessage[KeyOf(rec) := (if KeyOf(rec) in byMessage then byMessage[KeyOf(rec)] else []) + [rec]];
        }
        i := i + 1;
      }
      assert visits[..i] == visits;
      cache := kept;
    }
  }

  // ----------------------------------------------------------------- grouping is exact

  function OfKey(recs: seq<FileRecord>, k: Key): seq<FileRecord> {
    if recs == [] then []
    else OfKey(recs[..|recs| - 1], k) + if KeyOf(recs[|recs| - 1]) == k then [recs[|recs| - 1]] else []
  }

  /** Each message holds exactly the records with its key, in order. */
  lemma {:induction false} ByMessageIsExact(recs: seq<FileRecord>, k: Key)
    ensures k in ByMessage(recs) <==> OfKey(recs, k) != []
    ensures k in ByMessage(recs) ==> ByMessage(recs)[k] == OfKey(recs, k)
  {
    if recs != [] {
      ByMessageIsExact(recs[..|recs| - 1], k);
    }
  }

  lemma {:induction false} OfKeyHolds(recs: seq<FileRecord>, k: Key, r: FileRecord)
    ensures r in OfKey(recs, k) <==> r in recs && KeyOf(r) == k
  {
    if recs != [] {
      var front, last := recs[..|recs| - 1], recs[|recs| - 1];
      assert r in recs <==> r in front || r == last;
      OfKeyHolds(front, k, r);
    }
  }

  lemma {:induction false} YieldsAre(cache: map<string, Entry>, visits: seq<Visit>, tree: Tree, read: Reader, r: FileRecord)
    ensures r in Yields(cache, visits, tree, read) <==> exists v | v in visits :: Yield(cache, v, tree, read) == Some(r)
  {
    if visits != [] {
      var front, last := visits[..|visits| - 1], visits[|visits| - 1];
      assert forall v :: v in visits <==> v in front || v == last;
      YieldsAre(cache, front, tree, read, r);
    }
  }

  function OfFormat(files: seq<FileRecord>, format: Format): seq<FileRecord> {
    if files == [] then [] else (if files[0].format == format then [files[0]] else []) + OfFormat(files[1..], format)
  }

  /** newRecord: a stable sort by how much structure a rendering carries. */
  function Merged(files: seq<FileRecord>): seq<FileRecord> { OfFormat(files, Markdown) + OfFormat(files, Eml) }

  lemma {:induction false} MergedHolds(files: seq<FileRecord>)
    ensures multiset(OfFormat(files, Markdown)) + multiset(OfFormat(files, Eml)) == multiset(files)
  {
    if files != [] {
      assert files == [files[0]] + files[1..];
      MergedHolds(files[1..]);
    }
  }

  /** A message's record holds all its renderings, and leads with a markdown one where there is one. */
  lemma MergedPrefersMarkdown(files: seq<FileRecord>)
    ensures multiset(Merged(files)) == multiset(files)
    ensures (exists f | f in files :: f.format == Markdown) <==> Merged(files) != [] && Merged(files)[0].format == Markdown
  {
    MergedHolds(files);
    OfFormatIs(files, Markdown);
    OfFormatIs(files, Eml);
    if OfFormat(files, Markdown) != [] {
      assert OfFormat(files, Markdown)[0] in files;
    } else if OfFormat(files, Eml) != [] {
      assert OfFormat(files, Eml)[0] in OfFormat(files, Eml);
    }
  }

  lemma {:induction false} OfFormatIs(files: seq<FileRecord>, format: Format)
    ensures forall f :: f in OfFormat(files, format) <==> f in files && f.format == format
  {
    if files != [] {
      OfFormatIs(files[1..], format);
      assert forall f :: f in files <==> f == files[0] || f in files[1..];
    }
  }

  // ------------------------------------------------------------------ warm against cold

  /** The cache an earlier call left on an earlier tree. */
  ghost predicate LeftBy(cache: map<string, Entry>, visits: seq<Visit>, tree: Tree, read: Reader) {
    forall path | path in cache ::
      && path in tree && cache[path].size == tree[path].size && cache[path].modTime == tree[path].modTime
      && exists v | v in visits :: v.path == path && ParseFile(v, tree[path], read) == Some(cache[path].rec)
  }

  lemma {:induction false} ColdWalkLeaves(visits: seq<Visit>, tree: Tree, read: Reader)
    ensures LeftBy(Fresh(map[], visits, tree, read), visits, tree, read)
  {
    if visits != [] {
      var front, last := visits[..|visits| - 1], visits[|visits| - 1];
      ColdWalkLeaves(front, tree, read);
      assert forall v | v in front :: v in visits;
      assert last in visits;
    }
  }

  /** No path is come to under two rules. */
  ghost predicate OneRulePerPath(visits: seq<Visit>, more: seq<Visit>) {
    forall v, w | v in visits && w in more && v.path == w.path :: v.rule == w.rule
  }

  /** Equal size and time mean an equal reading. */
  ghost predicate TimesTell(before: Tree, tree: Tree, read: Reader) {
    forall path, format | path in before && path in tree
      && before[path].size == tree[path].size && before[path].modTime == tree[path].modTime ::
      read(path, format, before[path]) == read(path, format, tree[path])
  }

  lemma ParseAgrees(v: Visit, before: Stat, now: Stat, read: Reader)
    requires before.size == now.size && before.modTime == now.modTime
    requires forall format :: read(v.path, format, before) == read(v.path, format, now)
    ensures ParseFile(v, before, read) == ParseFile(v, now, read)
  {
    var id, format := MessageIDFromPath(v.path), FormatOf(v.path);
    if id.Some? && format.Some? {
      assert read(v.path, format.value, before) == read(v.path, format.value, now);
    }
  }

  lemma YieldAgrees(cache: map<string, Entry>, past: seq<Visit>, before: Tree, v: Visit, tree: Tree, read: Reader)
    requires LeftBy(cache, past, before, read) && OneRulePerPath(past, [v]) && TimesTell(before, tree, read)
    ensures Yield(cache, v, tree, read) == Yield(map[], v, tree, read)
  {
    if v.path in tree && v.path in cache && cache[v.path].size == tree[v.path].size && cache[v.path].modTime == tree[v.path].modTime {
      var u :| u in past && u.path == v.path && ParseFile(u, before[v.path], read) == Some(cache[v.path].rec);
      assert v in [v] && u.rule == v.rule;
      ParseAgrees(v, before[v.path], tree[v.path], read);
    }
  }

  lemma {:induction false} WalksAgree(cache: map<string, Entry>, visits: seq<Visit>, tree: Tree, read: Reader)
    requires forall v | v in visits :: Yield(cache, v, tree, read) == Yield(map[], v, tree, read)
    ensures Yields(cache, visits, tree, read) == Yields(map[], visits, tree, read)
    ensures Fresh(cache, visits, tree, read) == Fresh(map[], visits, tree, read)
  {
    if visits != [] {
      assert visits[|visits| - 1] in visits;
      WalksAgree(cache, visits[..|visits| - 1], tree, read);
    }
  }

  /** A warm index equals a cold one, on a tree that has changed in any way since: while each path
      is under one rule, and a file's time or size tells that it has changed. */
  lemma WarmEqualsCold(
    cache: map<string, Entry>, past: seq<Visit>, before: Tree, visits: seq<Visit>, tree: Tree, read: Reader)
    requires LeftBy(cache, past, before, read) && OneRulePerPath(past, visits) && TimesTell(before, tree, read)
    ensures Yields(cache, visits, tree, read) == Yields(map[], visits, tree, read)
    ensures Fresh(cache, visits, tree, read) == Fresh(map[], visits, tree, read)
  {
    forall v | v in visits ensures Yield(cache, v, tree, read) == Yield(map[], v, tree, read) {
      YieldAgrees(cache, past, before, v, tree, read);
    }
    WalksAgree(cache, visits, tree, read);
  }

  /** Every visit that yields a record is the only rule its path is under. */
  ghost predicate Disjoint(visits: seq<Visit>, tree: Tree, read: Reader) {
    forall v, w | v in visits && w in visits && v.path == w.path && Yield(map[], v, tree, read).Some? :: v.rule == w.rule
  }

  lemma {:induction false} FreshHolds(visits: seq<Visit>, tree: Tree, read: Reader, path: string)
    ensures path in Fresh(map[], visits, tree, read) <==>
            exists v | v in visits :: v.path == path && Yield(map[], v, tree, read).Some?
  {
    if visits != [] {
      var front, last := visits[..|visits| - 1], visits[|visits| - 1];
      assert forall v :: v in visits <==> v in front || v == last;
      FreshHolds(front, tree, read, path);
    }
  }

  /** Whether a file can be read does not depend on the rule it is read under. */
  lemma RuleOnlyLabels(v: Visit, w: Visit, stat: Stat, read: Reader)
    requires v.path == w.path
    ensures ParseFile(v, stat, read).Some? <==> ParseFile(w, stat, read).Some?
    ensures ParseFile(v, stat, read).Some? ==> ParseFile(w, stat, read) == Some(ParseFile(v, stat, read).value.(rule := w.rule))
  {
  }

  /** Exactly when a second call, on an unchanged tree, answers as the first did: when no readable
      file is under two rules. Where destinations are shared or nested, every rule but the last to
      walk a file loses it to the cache. */
  lemma WarmEqualsColdExactly(visits: seq<Visit>, tree: Tree, read: Reader)
    ensures ByMessage(Yields(Fresh(map[], visits, tree, read), visits, tree, read)) == ByMessage(Yields(map[], visits, tree, read))
       <==> Disjoint(visits, tree, read)
  {
    var cache := Fresh(map[], visits, tree, read);
    ColdWalkLeaves(visits, tree, read);
    if Disjoint(visits, tree, read) {
      DisjointWalksAgree(visits, tree, read);
    } else {
      var v, w :| v in visits && w in visits && v.path == w.path && Yield(map[], v, tree, read).Some? && v.rule != w.rule;
      SharedWalksDiffer(visits, tree, read, v, w);
    }
  }

  lemma DisjointWalksAgree(visits: seq<Visit>, tree: Tree, read: Reader)
    requires Disjoint(visits, tree, read)
    ensures Yields(Fresh(map[], visits, tree, read), visits, tree, read) == Yields(map[], visits, tree, read)
  {
    var cache := Fresh(map[], visits, tree, read);
    ColdWalkLeaves(visits, tree, read);
    forall v | v in visits ensures Yield(cache, v, tree, read) == Yield(map[], v, tree, read) {
      if v.path in tree && v.path in cache {
        var u :| u in visits && u.path == v.path && ParseFile(u, tree[v.path], read) == Some(cache[v.path].rec);
        assert Yield(map[], u, tree, read).Some?;
      }
    }
    WalksAgree(cache, visits, tree, read);
  }

  lemma SharedWalksDiffer(visits: seq<Visit>, tree: Tree, read: Reader, v: Visit, w: Visit)
    requires v in visits && w in visits && v.path == w.path && Yield(map[], v, tree, read).Some? && v.rule != w.rule
    ensures ByMessage(Yields(Fresh(map[], visits, tree, read), visits, tree, read)) != ByMessage(Yields(map[], visits, tree, read))
  {
    var cache := Fresh(map[], visits, tree, read);
    ColdWalkLeaves(visits, tree, read);
    FreshHolds(visits, tree, read, v.path);
    RuleOnlyLabels(v, w, tree[v.path], read);
    var cached := cache[v.path].rec;
    var lost := if cached.rule == v.rule then w else v;
    var rec := Yield(map[], lost, tree, read).value;
    YieldsAre(map[], visits, tree, read, rec);
    YieldsAre(cache, visits, tree, read, rec);
    forall u | u in visits ensures Yield(cache, u, tree, read) != Some(rec) {
      if u.path in tree && Yield(cache, u, tree, read) == Some(rec) {
        CachedIsItself(cache, visits, tree, read, u, rec);
      }
    }
    var warm, cold := Yields(cache, visits, tree, read), Yields(map[], visits, tree, read);
    ByMessageIsExact(cold, KeyOf(rec));
    ByMessageIsExact(warm, KeyOf(rec));
    OfKeyHolds(cold, KeyOf(rec), rec);
    OfKeyHolds(warm, KeyOf(rec), rec);
  }

  /** A record a warm walk yields carries the path it was yielded for. */
  lemma CachedIsItself(cache: map<string, Entry>, visits: seq<Visit>, tree: Tree, read: Reader, u: Visit, rec: FileRecord)
    requires LeftBy(cache, visits, tree, read) && u.path in tree && Yield(cache, u, tree, read) == Some(rec)
    ensures rec.path == u.path
    ensures u.path in cache ==> rec == cache[u.path].rec
  {
    if u.path in cache {
      var v :| v in visits && v.path == u.path && ParseFile(v, tree[u.path], read) == Some(cache[u.path].rec);
    }
  }

  // ------------------------------------------------------------- what the walk comes to

  const ATTACHMENTS_SUFFIX := ".attachments"

  predicate Hidden(name: string) { HasPrefix(name, ".") }

  predicate Readable(name: string) {
    var ext := ToLower(ExtOf(name));
    ext == ".md" || ext == ".eml"
  }

  /** Whether the walk reaches a file, by its path below the root: not through a hidden directory
      or an attachments directory, and only a readable name that is not hidden. */
  predicate Shown(rel: string)
    decreases |rel|
  {
    var slash := IndexOf(rel, '/');
    if slash < 0 then !Hidden(rel) && Readable(rel)
    else !Hidden(rel[..slash]) && !HasSuffix(rel[..slash], ATTACHMENTS_SUFFIX) && Shown(rel[slash + 1..])
  }

  lemma ShownStep(dir: string, rest: string)
    requires '/' !in dir
    ensures Shown(dir + "/" + rest) <==> !Hidden(dir) && !HasSuffix(dir, ATTACHMENTS_SUFFIX) && Shown(rest)
  {
    var rel := dir + "/" + rest;
    FirstIndex(dir, '/', rest);
    assert rel == dir + ['/'] + rest;
    assert rel[..|dir|] == dir && rel[|dir| + 1..] == rest;
  }

  /** `2006/01`: two directory names of digits. */
  predicate IsMonth(month: string, year: string, number: string) {
    month == year + "/" + number && |year| > 0 && |number| > 0 && All(year, IsDigit) && All(number, IsDigit)
  }

  lemma DigitsAreShown(dir: string, rest: string)
    requires dir != "" && All(dir, IsDigit)
    ensures Shown(dir + "/" + rest) <==> Shown(rest)
  {
    assert !IsDigit('/') && '/' !in dir;
    assert !IsDigit('.') && dir[0] != '.';
    if |dir| >= |ATTACHMENTS_SUFFIX| {
      assert dir[|dir| - |ATTACHMENTS_SUFFIX|..][0] != '.';
    }
    ShownStep(dir, rest);
  }

  lemma BaseIsPlain(msg: Message, names: SinkNames.Libs)
    ensures var base := Basename(msg, names); base != "" && '/' !in base && base[0] != '.' && '.' !in base
  {
    BasenameShape(msg, names);
  }

  lemma ExtIsLower(format: Format)
    ensures ToLower(Ext(format)) == Ext(format) && Ext(format) == "." + Ext(format)[1..]
    ensures '.' !in Ext(format)[1..] && '/' !in Ext(format)
  {
    match format
    case Eml => assert ToLower(".eml") == ".eml";
    case Markdown => assert ToLower(".md") == ".md";
  }

  lemma DeliveredName(msg: Message, format: Format, names: SinkNames.Libs)
    ensures var name := Basename(msg, names) + Ext(format);
            '/' !in name && name[0] != '.' && ExtOf(name) == Ext(format)
  {
    var base, tail := Basename(msg, names), Ext(format)[1..];
    BaseIsPlain(msg, names);
    ExtIsLower(format);
    ExtOfConcat(base, tail);
    Assoc(base, ".", tail);
    assert (base + Ext(format))[0] == base[0];
  }

  lemma NameIsShown(name: string, format: Format)
    requires name != "" && '/' !in name && name[0] != '.' && ExtOf(name) == Ext(format)
    ensures Shown(name)
  {
    ExtIsLower(format);
  }

  lemma MonthIsShown(month: string, year: string, number: string, name: string)
    requires IsMonth(month, year, number)
    ensures Shown(month + "/" + name) <==> Shown(name)
  {
    DigitsAreShown(number, name);
    DigitsAreShown(year, number + "/" + name);
    assert year + "/" + (number + "/" + name) == year + "/" + number + "/" + name;
  }

  /** Every rendering a sink delivers is reached by the walk of its rule's root. */
  lemma DeliveredIsShown(msg: Message, format: Format, names: SinkNames.Libs, year: string, number: string)
    requires IsMonth(names.month(msg.date), year, number)
    ensures Shown(names.month(msg.date) + "/" + (Basename(msg, names) + Ext(format)))
  {
    var name := Basename(msg, names) + Ext(format);
    DeliveredName(msg, format, names);
    NameIsShown(name, format);
    MonthIsShown(names.month(msg.date), year, number, name);
  }

  /** Nothing inside a message's attachments directory is, whatever it is called. */
  lemma AttachmentIsNotShown(msg: Message, names: SinkNames.Libs, year: string, number: string, inside: string)
    requires IsMonth(names.month(msg.date), year, number)
    ensures !Shown(names.month(msg.date) + "/" + (Basename(msg, names) + ATTACHMENTS_SUFFIX) + "/" + inside)
  {
    var month, dir := names.month(msg.date), Basename(msg, names) + ATTACHMENTS_SUFFIX;
    BaseIsPlain(msg, names);
    SuffixOfConcat(Basename(msg, names), ATTACHMENTS_SUFFIX);
    assert '/' !in dir;
    ShownStep(dir, inside);
    MonthIsShown(month, year, number, dir + "/" + inside);
    assert month + "/" + (dir + "/" + inside) == month + "/" + dir + "/" + inside;
  }

  // ---------------------------------------------------------- the index recovers deliveries

  /** One rendering a sink stored. */
  datatype Delivery = Delivery(msg: Message, rule: string, dest: string, format: Format)

  function DeliveredPath(d: Delivery, names: SinkNames.Libs): string { PathFor(d.msg, d.dest, Ext(d.format), names) }

  function DeliveredKey(d: Delivery, names: SinkNames.Libs): Key { Key(d.rule, Identity(d.msg.account, d.msg.id, names)) }

  /** The walk comes to exactly the delivered files, each once and under the rule it was delivered
      by: what the layout gives while no root holds another. */
  ghost predicate WalksDeliveries(visits: seq<Visit>, deliveries: set<Delivery>, names: SinkNames.Libs) {
    && Distinct(visits)
    && (forall v | v in visits :: exists d | d in deliveries :: v == Visit(DeliveredPath(d, names), d.rule))
    && (forall d | d in deliveries :: Visit(DeliveredPath(d, names), d.rule) in visits)
  }

  /** A rule's destination, as a root the walk starts from. */
  datatype Root = Root(rule: string, dir: string)

  predicate ComesTo(dir: string, path: string) { HasPrefix(path, dir + "/") && Shown(path[|dir| + 1..]) }

  /** The walk of every root: each file a root's walk comes to, once, under that root's rule. */
  ghost predicate WalkOf(visits: seq<Visit>, roots: set<Root>, tree: Tree) {
    && Distinct(visits)
    && (forall v | v in visits :: v.path in tree && exists r | r in roots :: r.rule == v.rule && ComesTo(r.dir, v.path))
    && (forall r, path | r in roots && path in tree && ComesTo(r.dir, path) :: Visit(path, r.rule) in visits)
  }

  /** Two roots are neither the same directory nor one inside the other. */
  predicate Below(dir: string, root: string) { dir == root || HasPrefix(dir, root + "/") }

  predicate Apart(roots: set<Root>) { forall r, s | r in roots && s in roots && r != s :: !Below(r.dir, s.dir) }

  function AttachmentsDir(d: Delivery, names: SinkNames.Libs): string {
    DirFor(d.msg, d.dest, names) + "/" + (Basename(d.msg, names) + ATTACHMENTS_SUFFIX)
  }

  /** One of a document's attachments, under the name the sink chose for it. */
  ghost predicate IsAttachment(d: Delivery, path: string, names: SinkNames.Libs) {
    d.format == Markdown && exists files: seq<Attachments.AttachmentFile>, i: nat ::
      Attachments.AllChosen(Attachments.Filenames(d.msg), files) && i < |files| && path == AttachmentsDir(d, names) + "/" + files[i].name
  }

  /** A temporary file a process that died left beside a rendering or an attachment. */
  ghost predicate IsTemporary(d: Delivery, path: string, names: SinkNames.Libs) {
    exists name | HasPrefix(name, ".") && '/' !in name ::
      path == DirFor(d.msg, d.dest, names) + "/" + name || path == AttachmentsDir(d, names) + "/" + name
  }

  /** What storing one rendering puts on disk. */
  ghost predicate WrittenFor(d: Delivery, path: string, names: SinkNames.Libs) {
    path == DeliveredPath(d, names) || IsAttachment(d, path, names) || IsTemporary(d, path, names)
  }

  /** A tree of which each file is there for one of the deliveries: every rendering delivered, under
      its rule's root, and nothing but what is written for some delivery; and no root holds another. */
  ghost predicate LaidBy(written: (Delivery, string) -> bool, deliveries: set<Delivery>, roots: set<Root>, tree: Tree, names: SinkNames.Libs) {
    && (forall d {:trigger DeliveredPath(d, names)} | d in deliveries ::
          DeliveredPath(d, names) in tree && Root(d.rule, d.dest) in roots && HasMonth(d.msg, names))
    && (forall path | path in tree :: exists d | d in deliveries :: written(d, path))
    && Apart(roots)
  }

  /** The tree the sinks have written. */
  ghost predicate Laid(deliveries: set<Delivery>, roots: set<Root>, tree: Tree, names: SinkNames.Libs) {
    LaidBy((d: Delivery, path: string) => WrittenFor(d, path, names), deliveries, roots, tree, names)
  }

  /** Nothing written for a delivery but its rendering is come to by any walk. */
  ghost predicate OnlyRenderings(written: (Delivery, string) -> bool, names: SinkNames.Libs) {
    forall d, path, dir | written(d, path) && ComesTo(dir, path) :: path == DeliveredPath(d, names)
  }

  ghost predicate HasMonth(msg: Message, names: SinkNames.Libs) {
    exists year, number :: IsMonth(names.month(msg.date), year, number)
  }

  lemma ShownIsComeTo(dir: string, rel: string)
    requires Shown(rel)
    ensures ComesTo(dir, dir + "/" + rel)
  {
    var path := dir + "/" + rel;
    assert path[..|dir| + 1] == dir + "/" && path[|dir| + 1..] == rel;
  }

  lemma DeliveredBelow(d: Delivery, names: SinkNames.Libs)
    ensures DeliveredPath(d, names) == d.dest + "/" + (names.month(d.msg.date) + "/" + (Basename(d.msg, names) + Ext(d.format)))
  {
    var month, name := names.month(d.msg.date), Basename(d.msg, names) + Ext(d.format);
    Assoc(d.dest + "/", month, "/" + name);
    Assoc(month, "/", name);
    Assoc(d.dest + "/" + month, "/", name);
  }

  lemma DeliveredIsComeTo(d: Delivery, names: SinkNames.Libs)
    requires HasMonth(d.msg, names)
    ensures ComesTo(d.dest, DeliveredPath(d, names))
  {
    var year, number :| IsMonth(names.month(d.msg.date), year, number);
    DeliveredIsShown(d.msg, d.format, names, year, number);
    DeliveredBelow(d, names);
    ShownIsComeTo(d.dest, names.month(d.msg.date) + "/" + (Basename(d.msg, names) + Ext(d.format)));
  }

  lemma SlashIsWithin(above: string, name: string)
    requires above != "" && above[|above| - 1] == '/'
    ensures var slash := IndexOf(above + name, '/');
            0 <= slash < |above| && (above + name)[slash + 1..] == above[slash + 1..] + name
  {
    var rel := above + name;
    var slash := IndexOf(rel, '/');
    assert rel[|above| - 1] == '/';
    assert forall k | 0 <= k < slash :: rel[k] == rel[..slash][k] && rel[..slash][k] in rel[..slash];
    assert 0 <= slash < |above|;
    TailOfConcat(above, name, slash + 1);
  }

  lemma TailOfConcat(above: string, name: string, k: nat)
    requires k <= |above|
    ensures (above + name)[k..] == above[k..] + name
  {
  }

  /** Whatever the walk shows has a readable name that is not hidden. */
  lemma {:induction false} ShownName(above: string, name: string)
    requires '/' !in name && (above == "" || above[|above| - 1] == '/') && Shown(above + name)
    ensures !Hidden(name) && Readable(name)
    decreases |above|
  {
    if above == "" {
      assert above + name == name;
    } else {
      SlashIsWithin(above, name);
      ShownName(above[IndexOf(above + name, '/') + 1..], name);
    }
  }

  lemma SlashIsAbove(dir: string, above: string, name: string)
    requires '/' !in name && HasPrefix(above + "/" + name, dir + "/")
    ensures |dir| <= |above| && (above + "/" + name)[|dir| + 1..] == (above + "/")[|dir| + 1..] + name
    ensures var rel := (above + "/")[|dir| + 1..]; rel == "" || rel[|rel| - 1] == '/'
  {
    var path := above + "/" + name;
    assert path[|dir|] == path[..|dir| + 1][|dir|] == '/';
    assert forall k | |above| < k < |path| :: path[k] == name[k - |above| - 1] && path[k] in name;
  }

  /** No walk, from whatever root, comes to a file with any other name. */
  lemma OthersAreNotComeTo(dir: string, above: string, name: string)
    requires '/' !in name && (Hidden(name) || !Readable(name))
    ensures !ComesTo(dir, above + "/" + name)
  {
    if ComesTo(dir, above + "/" + name) {
      SlashIsAbove(dir, above, name);
      var rel := (above + "/")[|dir| + 1..];
      ShownName(rel, name);
    }
  }

  /** An attachment's name is not one a walk shows, wherever its root is. */
  lemma AttachmentIsNotComeTo(dir: string, d: Delivery, path: string, names: SinkNames.Libs)
    requires IsAttachment(d, path, names) || IsTemporary(d, path, names)
    ensures !ComesTo(dir, path)
  {
    if IsAttachment(d, path, names) {
      var files: seq<Attachments.AttachmentFile>, i: nat :| Attachments.AllChosen(Attachments.Filenames(d.msg), files) && i < |files| && path == AttachmentsDir(d, names) + "/" + files[i].name;
      Attachments.NamesAreSafe(Attachments.Filenames(d.msg), files, i);
      Attachments.ReservedByExt(files[i].name);
      assert '/' !in files[i].name;
      OthersAreNotComeTo(dir, AttachmentsDir(d, names), files[i].name);
    } else {
      var name :| HasPrefix(name, ".") && '/' !in name
        && (path == DirFor(d.msg, d.dest, names) + "/" + name || path == AttachmentsDir(d, names) + "/" + name);
      OthersAreNotComeTo(dir, DirFor(d.msg, d.dest, names), name);
      OthersAreNotComeTo(dir, AttachmentsDir(d, names), name);
    }
  }

  lemma PrefixesMeet(a: string, b: string, path: string)
    requires |a| <= |b| && HasPrefix(path, a + "/") && HasPrefix(path, b + "/")
    ensures Below(b, a)
  {
    assert path[..|b|] == b;
    if |a| == |b| {
      assert path[..|a|] == a;
    } else {
      assert b[..|a| + 1] == path[..|a| + 1] == a + "/";
    }
  }

  /** A file is under one root only. */
  lemma OneRoot(roots: set<Root>, r: Root, s: Root, path: string)
    requires Apart(roots) && r in roots && s in roots && HasPrefix(path, r.dir + "/") && HasPrefix(path, s.dir + "/")
    ensures r == s
  {
    if |r.dir| <= |s.dir| {
      PrefixesMeet(r.dir, s.dir, path);
    } else {
      PrefixesMeet(s.dir, r.dir, path);
    }
  }

  lemma ComeToIsDelivered(d: Delivery, roots: set<Root>, names: SinkNames.Libs, r: Root)
    requires Apart(roots) && r in roots && Root(d.rule, d.dest) in roots && HasMonth(d.msg, names)
    requires ComesTo(r.dir, DeliveredPath(d, names))
    ensures r.rule == d.rule
  {
    DeliveredIsComeTo(d, names);
    OneRoot(roots, r, Root(d.rule, d.dest), DeliveredPath(d, names));
  }

  lemma VisitIsDelivered(v: Visit, visits: seq<Visit>, written: (Delivery, string) -> bool, roots: set<Root>, tree: Tree,
                         deliveries: set<Delivery>, names: SinkNames.Libs) returns (d: Delivery)
    requires v in visits && WalkOf(visits, roots, tree)
    requires LaidBy(written, deliveries, roots, tree, names) && OnlyRenderings(written, names)
    ensures d in deliveries && v == Visit(DeliveredPath(d, names), d.rule)
  {
    var r :| r in roots && r.rule == v.rule && ComesTo(r.dir, v.path);
    d :| d in deliveries && written(d, v.path);
    assert v.path == DeliveredPath(d, names);
    ComeToIsDelivered(d, roots, names, r);
  }

  lemma DeliveredIsVisited(d: Delivery, visits: seq<Visit>, written: (Delivery, string) -> bool, roots: set<Root>, tree: Tree,
                           deliveries: set<Delivery>, names: SinkNames.Libs)
    requires d in deliveries && WalkOf(visits, roots, tree) && LaidBy(written, deliveries, roots, tree, names)
    ensures Visit(DeliveredPath(d, names), d.rule) in visits
  {
    var path, root := DeliveredPath(d, names), Root(d.rule, d.dest);
    assert path in tree && root in roots && HasMonth(d.msg, names);
    DeliveredIsComeTo(d, names);
    assert ComesTo(root.dir, path);
  }

  /** On such a tree the walk is exactly the deliveries: nothing else written for them, and each
      rendering under its own rule. */
  lemma WalkIsOfDeliveries(visits: seq<Visit>, written: (Delivery, string) -> bool, roots: set<Root>, tree: Tree,
                           deliveries: set<Delivery>, names: SinkNames.Libs)
    requires WalkOf(visits, roots, tree) && LaidBy(written, deliveries, roots, tree, names) && OnlyRenderings(written, names)
    ensures WalksDeliveries(visits, deliveries, names)
  {
    forall d | d in deliveries ensures Visit(DeliveredPath(d, names), d.rule) in visits {
      DeliveredIsVisited(d, visits, written, roots, tree, deliveries, names);
    }
    forall v | v in visits ensures exists d | d in deliveries :: v == Visit(DeliveredPath(d, names), d.rule) {
      var d := VisitIsDelivered(v, visits, written, roots, tree, deliveries, names);
      assert v == Visit(DeliveredPath(d, names), d.rule);
    }
  }

  /** Attachments and temporary files are never come to, so a tree of the sinks is such a tree. */
  lemma SinksWriteOnlyRenderings(names: SinkNames.Libs)
    ensures OnlyRenderings((d: Delivery, path: string) => WrittenFor(d, path, names), names)
  {
    forall d, path, dir | WrittenFor(d, path, names) && ComesTo(dir, path) ensures path == DeliveredPath(d, names) {
      if path != DeliveredPath(d, names) {
        AttachmentIsNotComeTo(dir, d, path, names);
      }
    }
  }

  /** Every delivered file can be read. */
  ghost predicate AllReadable(deliveries: set<Delivery>, tree: Tree, read: Reader, names: SinkNames.Libs) {
    forall d | d in deliveries ::
      var path := DeliveredPath(d, names);
      path in tree && tree[path].size <= MAX_FILE_BYTES && read(path, d.format, tree[path]).Some?
  }

  lemma FormatOfJoin(dir: string, name: string, format: Format)
    requires name != "" && '/' !in name && ExtOf(name) == Ext(format)
    ensures FormatOf(dir + "/" + name) == Some(format)
  {
    BaseOfJoin(dir, name);
    ExtIsLower(format);
  }

  lemma FormatOfDelivered(d: Delivery, names: SinkNames.Libs)
    ensures FormatOf(DeliveredPath(d, names)) == Some(d.format)
  {
    DeliveredName(d.msg, d.format, names);
    FormatOfJoin(DirFor(d.msg, d.dest, names), Basename(d.msg, names) + Ext(d.format), d.format);
  }

  lemma IdOfDelivered(d: Delivery, names: SinkNames.Libs)
    ensures MessageIDFromPath(DeliveredPath(d, names)) == Some(Identity(d.msg.account, d.msg.id, names))
  {
    ExtIsLower(d.format);
    NameRoundTrip(d.msg, d.dest, Ext(d.format)[1..], names);
  }

  lemma ParsesNamed(v: Visit, stat: Stat, read: Reader, id: string, format: Format)
    requires MessageIDFromPath(v.path) == Some(id) && FormatOf(v.path) == Some(format)
    requires stat.size <= MAX_FILE_BYTES && read(v.path, format, stat).Some?
    ensures ParseFile(v, stat, read)
         == Some(FileRecord(v.path, format, stat.size, stat.modTime, id, v.rule, read(v.path, format, stat).value))
  {
  }

  ghost predicate IsRecordOf(r: FileRecord, d: Delivery, names: SinkNames.Libs) {
    KeyOf(r) == DeliveredKey(d, names) && r.path == DeliveredPath(d, names) && r.format == d.format
  }

  lemma YieldsDelivery(d: Delivery, deliveries: set<Delivery>, tree: Tree, read: Reader, names: SinkNames.Libs)
    requires AllReadable(deliveries, tree, read, names) && d in deliveries
    ensures var r := Yield(map[], Visit(DeliveredPath(d, names), d.rule), tree, read); r.Some? && IsRecordOf(r.value, d, names)
  {
    var path := DeliveredPath(d, names);
    FormatOfDelivered(d, names);
    IdOfDelivered(d, names);
    ParsesNamed(Visit(path, d.rule), tree[path], read, Identity(d.msg.account, d.msg.id, names), d.format);
  }

  lemma DeliveriesAreYielded(visits: seq<Visit>, deliveries: set<Delivery>, tree: Tree, read: Reader, names: SinkNames.Libs, d: Delivery)
    requires WalksDeliveries(visits, deliveries, names) && AllReadable(deliveries, tree, read, names) && d in deliveries
    ensures exists r | r in Yields(map[], visits, tree, read) :: IsRecordOf(r, d, names)
  {
    YieldsDelivery(d, deliveries, tree, read, names);
    var v := Visit(DeliveredPath(d, names), d.rule);
    var r := Yield(map[], v, tree, read).value;
    YieldsAre(map[], visits, tree, read, r);
    assert IsRecordOf(r, d, names);
  }

  lemma YieldedIsDelivered(visits: seq<Visit>, deliveries: set<Delivery>, tree: Tree, read: Reader, names: SinkNames.Libs, r: FileRecord)
    requires WalksDeliveries(visits, deliveries, names) && AllReadable(deliveries, tree, read, names)
    requires r in Yields(map[], visits, tree, read)
    ensures exists d | d in deliveries :: IsRecordOf(r, d, names)
  {
    YieldsAre(map[], visits, tree, read, r);
    var v :| v in visits && Yield(map[], v, tree, read) == Some(r);
    var d :| d in deliveries && v == Visit(DeliveredPath(d, names), d.rule);
    YieldsDelivery(d, deliveries, tree, read, names);
  }

  /** Some rendering of the message k was delivered at this path in this format. */
  ghost predicate DeliveredAs(deliveries: set<Delivery>, names: SinkNames.Libs, k: Key, path: string, format: Format) {
    exists d | d in deliveries :: DeliveredKey(d, names) == k && DeliveredPath(d, names) == path && d.format == format
  }

  /** The index holds a file of the message k at this path in this format. */
  ghost predicate IndexedAs(index: map<Key, seq<FileRecord>>, k: Key, path: string, format: Format) {
    k in index && exists r | r in index[k] :: r.path == path && r.format == format
  }

  lemma IndexOfWalk(visits: seq<Visit>, deliveries: set<Delivery>, tree: Tree, read: Reader, names: SinkNames.Libs,
                    k: Key, path: string, format: Format)
    requires WalksDeliveries(visits, deliveries, names) && AllReadable(deliveries, tree, read, names)
    ensures IndexedAs(ByMessage(Yields(map[], visits, tree, read)), k, path, format) <==> DeliveredAs(deliveries, names, k, path, format)
  {
    var recs := Yields(map[], visits, tree, read);
    ByMessageIsExact(recs, k);
    if d :| d in deliveries && DeliveredKey(d, names) == k && DeliveredPath(d, names) == path && d.format == format {
      DeliveriesAreYielded(visits, deliveries, tree, read, names, d);
      var r :| r in recs && IsRecordOf(r, d, names);
      OfKeyHolds(recs, k, r);
    }
    if IndexedAs(ByMessage(recs), k, path, format) {
      var r :| r in OfKey(recs, k) && r.path == path && r.format == format;
      OfKeyHolds(recs, k, r);
      YieldedIsDelivered(visits, deliveries, tree, read, names, r);
    }
  }

  /** Over whatever tree the sinks have written, the archive index holds exactly what they delivered:
      each message that was delivered, under it each of its renderings, and nothing else. */
  lemma IndexRecovers(visits: seq<Visit>, roots: set<Root>, deliveries: set<Delivery>, tree: Tree, read: Reader, names: SinkNames.Libs,
                      k: Key, path: string, format: Format)
    requires WalkOf(visits, roots, tree) && Laid(deliveries, roots, tree, names) && AllReadable(deliveries, tree, read, names)
    ensures IndexedAs(ByMessage(Yields(map[], visits, tree, read)), k, path, format) <==> DeliveredAs(deliveries, names, k, path, format)
  {
    var written := (d: Delivery, path: string) => WrittenFor(d, path, names);
    SinksWriteOnlyRenderings(names);
    WalkIsOfDeliveries(visits, written, roots, tree, deliveries, names);
    IndexOfWalk(visits, deliveries, tree, read, names, k, path, format);
  }

  /** No file is in the index twice. */
  lemma {:induction false} YieldsOnce(visits: seq<Visit>, tree: Tree, read: Reader)
    requires Distinct(visits)
    ensures Distinct(Yields(map[], visits, tree, read))
  {
    if visits != [] {
      var front, last := visits[..|visits| - 1], visits[|visits| - 1];
      YieldsOnce(front, tree, read);
      var r := Yield(map[], last, tree, read);
      if r.Some? {
        YieldsAre(map[], front, tree, read, r.value);
        forall v | v in front ensures Yield(map[], v, tree, read) != r {
          assert v != last;
        }
      }
    }
  }

  /** One record a message: while digests differ, two deliveries share a record only if they are
      renderings of one message under one rule. */
  lemma RecordsAreMessages(d: Delivery, e: Delivery, ids: set<string>, names: SinkNames.Libs)
    requires d.msg.account == e.msg.account && d.msg.id in ids && e.msg.id in ids
    requires DistinctIdentities(d.msg.account, ids, names)
    ensures DeliveredKey(d, names) == DeliveredKey(e, names) <==> d.rule == e.rule && d.msg.id == e.msg.id
  {
  }
}
