/** Compiling rules and routing messages to the first rule that claims them
    (internal/filter/compile.go, internal/filter/engine.go). */
module FilterEngine {
  import opened Text
  import opened Seqs
  import opened Mail
  import opened Filter

  // --------------------------------------------------------------------- compile

  /** The recognized match-node keys, as tokens. */
  datatype Key =
    | AllKey | AnyKey | NotKey
    | FromDomainsKey | FromDomainsFileKey | FromRegexKey | FromRegexFileKey | HasAttachmentKey | HeaderKey
    | LabelKey | NewerThanKey | OlderThanKey | SubjectRegexKey | ToRegexKey
    | NameKey | RegexKey
    | UnknownKey | NonScalarKey

  /** A YAML node with documents unwrapped and aliases followed. */
  datatype Node =
    | Null
    | Scalar(value: string)
    | Sequence(items: seq<Node>)
    | Mapping(entries: seq<Pair>)

  datatype Pair = Pair(key: Key, value: Node)

  datatype Result<+T> = Ok(value: T) | Error

  function NormalizeDomain(s: string): string {
    var a := TrimSpace(s);
    var b := if HasPrefix(a, "@") then a[1..] else a;
    var c := if HasSuffix(b, ".") then b[..|b| - 1] else b;
    ToLower(TrimSpace(c))
  }

  /** strings.TrimSpace(s) == "". */
  predicate Blank(s: string) { forall i | 0 <= i < |s| :: IsSpace(s[i]) }

  function Scalars(items: seq<Node>): Result<seq<string>> {
    if items == [] then Ok([])
    else if !items[0].Scalar? then Error
    else
      var rest := Scalars(items[1..]);
      if rest.Error? then Error else Ok([items[0].value] + rest.value)
  }

  function Normalized(domains: seq<string>): Result<seq<string>> {
    if domains == [] then Ok([])
    else
      var d, rest := NormalizeDomain(domains[0]), Normalized(domains[1..]);
      if d == "" || rest.Error? then Error else Ok([d] + rest.value)
  }

  function CompileDomainList(n: Node): Result<Match> {
    if !n.Sequence? || n.items == [] then Error
    else
      var raw := Scalars(n.items);
      if raw.Error? then Error
      else
        var wanted := Normalized(raw.value);
        if wanted.Error? then Error else Ok(FromDomainList(wanted.value))
  }

  /** `header: {name: X-Foo, regex: pattern}`: exactly those keys, the last of each winning. */
  function HeaderKeys(entries: seq<Pair>, name: Option<string>, pattern: Option<string>)
    : Result<(Option<string>, Option<string>)>
  {
    if entries == [] then Ok((name, pattern))
    else if !entries[0].value.Scalar? then Error
    else
      match entries[0].key
      case NameKey => HeaderKeys(entries[1..], Some(entries[0].value.value), pattern)
      case RegexKey => HeaderKeys(entries[1..], name, Some(entries[0].value.value))
      case _ => Error
  }

  function CompileHeader(n: Node, libs: Libs): Result<Match> {
    if !n.Mapping? then Error
    else
      var keys := HeaderKeys(n.entries, None, None);
      if keys.Error? then Error
      else
        match keys.value
        case (Some(name), Some(pattern)) =>
          if Blank(name) || !libs.valid(pattern) then Error else Ok(Header(name, pattern))
        case _ => Error
  }

  /** The predicates: every key but the three combinators. */
  function CompileLeaf(key: Key, n: Node, libs: Libs): Result<Match> {
    match key
    case FromDomainsKey => CompileDomainList(n)
    case HeaderKey => CompileHeader(n, libs)
    case _ => if n.Scalar? then CompileScalar(key, n.value, libs) else Error
  }

  function CompileScalar(key: Key, s: string, libs: Libs): Result<Match> {
    match key
    case FromDomainsFileKey => if Blank(s) then Error else Ok(FromDomainsFile(s))
    case FromRegexFileKey => if Blank(s) then Error else Ok(FromRegexFile(s))
    case FromRegexKey => if libs.valid(s) then Ok(Regex(FromField, s)) else Error
    case ToRegexKey => if libs.valid(s) then Ok(Regex(ToField, s)) else Error
    case SubjectRegexKey => if libs.valid(s) then Ok(Regex(SubjectField, s)) else Error
    case HasAttachmentKey =>
      var want := libs.parseBool(TrimSpace(s));
      if want.None? then Error else Ok(HasAttachment(want.value))
    case LabelKey => if Blank(s) then Error else Ok(HasLabel(s))
    case OlderThanKey => CompileAge(s, true, libs)
    case NewerThanKey => CompileAge(s, false, libs)
    case _ => Error
  }

  function CompileAge(s: string, older: bool, libs: Libs): Result<Match> {
    var d := libs.duration(TrimSpace(s));
    if d.None? || d.value <= 0 then Error else Ok(Age(older, d.value))
  }

  function Compiled(n: Node, libs: Libs): Result<Match>
    decreases n, 1
  {
    if !n.Mapping? || |n.entries| != 1 then Error
    else
      var key, value := n.entries[0].key, n.entries[0].value;
      match key
      case AllKey =>
        if !value.Sequence? || value.items == [] then Error
        else
          var children := CompiledAll(value.items, libs);
          if children.Error? then Error else Ok(All(children.value))
      case AnyKey =>
        if !value.Sequence? || value.items == [] then Error
        else
          var children := CompiledAll(value.items, libs);
          if children.Error? then Error else Ok(Any(children.value))
      case NotKey =>
        var inner := Compiled(value, libs);
        if inner.Error? then Error else Ok(Not(inner.value))
      case _ => CompileLeaf(key, value, libs)
  }

  function CompiledAll(items: seq<Node>, libs: Libs): Result<seq<Match>>
    decreases items, 0
  {
    if items == [] then Ok([])
    else
      var first := Compiled(items[0], libs);
      if first.Error? then Error
      else
        var rest := CompiledAll(items[1..], libs);
        Prepend([first.value], rest)
  }

  /** The files of a tree in the order compilation meets them. */
  function FilesInOrder(m: Match): (refs: seq<FileRef>)
    decreases m, 1
  {
    match m
    case All(children) => FilesOfAll(children)
    case Any(children) => FilesOfAll(children)
    case Not(inner) => FilesInOrder(inner)
    case FromDomainsFile(path) => [FileRef(Domains, path)]
    case FromRegexFile(path) => [FileRef(Patterns, path)]
    case _ => []
  }

  function FilesOfAll(children: seq<Match>): seq<FileRef>
    decreases children, 0
  {
    if children == [] then []
    else
      FilesInOrder(children[0]) + FilesOfAll(children[1..])
  }

  lemma {:induction false} FilesInOrderAreFilesOf(m: Match)
    ensures forall f :: f in FilesInOrder(m) <==> f in FilesOf(m)
    decreases m, 1
  {
    match m
    case All(children) => FilesOfAllAreFilesOf(children);
    case Any(children) => FilesOfAllAreFilesOf(children);
    case Not(inner) => FilesInOrderAreFilesOf(inner);
    case _ =>
  }

  lemma {:induction false} FilesOfAllAreFilesOf(children: seq<Match>)
    ensures forall f :: f in FilesOfAll(children) <==> exists c | c in children :: f in FilesOf(c)
    decreases children, 0
  {
    if children != [] {
      assert children[0] in children && forall c | c in children[1..] :: c in children;
      assert forall c | c in children :: c == children[0] || c in children[1..];
      FilesInOrderAreFilesOf(children[0]);
      FilesOfAllAreFilesOf(children[1..]);
    }
  }

  /** compile.go's options: `refs` grows as predicates over files are compiled. */
  class Compiler {
    const libs: Libs
    var refs: seq<FileRef>

    constructor (libs: Libs)
      ensures this.libs == libs && refs == []
    {
      this.libs := libs;
      refs := [];
    }

    method Reference(ref: FileRef)
      modifies this
      ensures refs == AddAll(old(refs), [ref])
    {
      var i := 0;
      while i < |refs|
        invariant 0 <= i <= |refs|
        invariant ref !in refs[..i]
      {
        if refs[i] == ref {
          return;
        }
        i := i + 1;
      }
      refs := refs + [ref];
    }

    method Compile(n: Node) returns (r: Result<Match>)
      modifies this
      ensures r == Compiled(n, libs)
      ensures r.Ok? ==> refs == AddAll(old(refs), FilesInOrder(r.value))
      decreases n, 1
    {
      if !n.Mapping? || |n.entries| != 1 {
        return Error;
      }
      var key, value := n.entries[0].key, n.entries[0].value;
      if key.AllKey? || key.AnyKey? {
        if !value.Sequence? || value.items == [] {
          return Error;
        }
        var children := CompileChildren(value.items);
        if children.Error? {
          return Error;
        }
        r := Ok(if key.AllKey? then All(children.value) else Any(children.value));
      } else if key.NotKey? {
        var inner := Compile(value);
        r := if inner.Error? then Error else Ok(Not(inner.value));
      } else {
        r := CompileLeaf(key, value, libs);
        if r.Ok? && r.value.FromDomainsFile? {
          Reference(FileRef(Domains, r.value.path));
        } else if r.Ok? && r.value.FromRegexFile? {
          Reference(FileRef(Patterns, r.value.path));
        }
      }
    }

    method CompileChildren(items: seq<Node>) returns (r: Result<seq<Match>>)
      modifies this
      ensures r == CompiledAll(items, libs)
      ensures r.Ok? ==> refs == AddAll(old(refs), FilesOfAll(r.value))
      decreases items, 0
    {
      var i, done := 0, [];
      PrependMore(done, done, CompiledAll(items, libs));
      assert items[0..] == items;
      while i < |items|
        invariant 0 <= i <= |items|
        invariant CompiledAll(items, libs) == Prepend(done, CompiledAll(items[i..], libs))
        invariant refs == AddAll(old(refs), FilesOfAll(done))
      {
        ghost var before, sofar := refs, FilesOfAll(done);
        assert items[i..][1..] == items[i + 1..];
        var child := Compile(items[i]);
        if child.Error? {
          return Error;
        }
        AddAllConcat(old(refs), sofar, FilesInOrder(child.value));
        FilesOfAllAppend(done, child.value);
        PrependMore(done, [child.value], CompiledAll(items[i + 1..], libs));
        done := done + [child.value];
        i := i + 1;
      }
      assert items[i..] == [] && done + [] == done;
      r := Ok(done);
    }
  }

  function Prepend<T>(done: seq<T>, rest: Result<seq<T>>): Result<seq<T>> {
    if rest.Error? then Error else Ok(done + rest.value)
  }

  lemma PrependMore<T>(done: seq<T>, more: seq<T>, rest: Result<seq<T>>)
    ensures Prepend(done, Prepend(more, rest)) == Prepend(done + more, rest)
    ensures Prepend([], rest) == rest
  {
    if rest.Ok? {
      assert [] + rest.value == rest.value;
      assert done + (more + rest.value) == done + more + rest.value;
    }
  }

  lemma {:induction false} FilesOfAllAppend(children: seq<Match>, last: Match)
    ensures FilesOfAll(children + [last]) == FilesOfAll(children) + FilesInOrder(last)
  {
    if children == [] {
      assert children + [last] == [last];
    } else {
      assert (children + [last])[1..] == children[1..] + [last];
      FilesOfAllAppend(children[1..], last);
    }
  }

  // ---------------------------------------------------------------------- engine

  datatype Format = Eml | Markdown

  datatype RuleConfig = RuleConfig(name: string, account: string, dest: string, formats: seq<Format>, tree: Node)

  /** A rule with its compiled match tree. */
  datatype Rule = Rule(name: string, account: string, dest: string, formats: seq<Format>, matcher: Match)

  predicate AppliesTo(rule: Rule, account: string) { rule.account == "" || rule.account == account }

  /** The rule that claims a message when the lists are those of the cache. */
  function FirstMatch(rules: seq<Rule>, msg: Message, ctx: Context, lists: Cache): Option<Rule> {
    if rules == [] then None
    else if AppliesTo(rules[0], msg.account) && Satisfies(rules[0].matcher, msg, ctx, lists) then Some(rules[0])
    else FirstMatch(rules[1..], msg, ctx, lists)
  }

  ghost predicate Claims(rule: Rule, msg: Message, ctx: Context, lists: Cache) {
    AppliesTo(rule, msg.account) && Satisfies(rule.matcher, msg, ctx, lists)
  }

  /** First match wins: the claiming rule accepts the message and every rule before it does not;
      without one, no rule accepts it. */
  lemma {:induction false} FirstMatchIsFirst(rules: seq<Rule>, msg: Message, ctx: Context, lists: Cache)
    ensures match FirstMatch(rules, msg, ctx, lists)
            case Some(rule) => exists i | 0 <= i < |rules| ::
              rules[i] == rule && Claims(rule, msg, ctx, lists) && forall j | 0 <= j < i :: !Claims(rules[j], msg, ctx, lists)
            case None => forall rule | rule in rules :: !Claims(rule, msg, ctx, lists)
  {
    if rules != [] {
      if Claims(rules[0], msg, ctx, lists) {
        assert rules[0] == FirstMatch(rules, msg, ctx, lists).value;
      } else {
        FirstMatchIsFirst(rules[1..], msg, ctx, lists);
        if FirstMatch(rules, msg, ctx, lists).Some? {
          var i :| 0 <= i < |rules[1..]| && rules[1..][i] == FirstMatch(rules, msg, ctx, lists).value
                && Claims(rules[1..][i], msg, ctx, lists) && forall j | 0 <= j < i :: !Claims(rules[1..][j], msg, ctx, lists);
          assert forall j | 1 <= j < i + 1 :: rules[j] == rules[1..][j - 1];
          assert rules[i + 1] == rules[1..][i];
        }
      }
    }
  }

  /** Evaluate as it runs: lazily, over whatever is cached so far. */
  function Routed(rules: seq<Rule>, msg: Message, ctx: Context, cache: Cache, disk: Disk): (Option<Rule>, Cache) {
    if rules == [] then (None, cache)
    else if !AppliesTo(rules[0], msg.account) then Routed(rules[1..], msg, ctx, cache, disk)
    else
      var (claimed, after) := Eval(rules[0].matcher, msg, ctx, cache, disk);
      if claimed then (Some(rules[0]), after) else Routed(rules[1..], msg, ctx, after, disk)
  }

  /** Every file some rule may consult. */
  ghost function AllFiles(rules: seq<Rule>): set<FileRef> {
    set rule, ref | rule in rules && ref in FilesOf(rule.matcher) :: ref
  }

  lemma AllFilesAppend(rules: seq<Rule>, last: Rule)
    ensures AllFiles(rules + [last]) == AllFiles(rules) + FilesOf(last.matcher)
  {
    var all := rules + [last];
    forall ref | ref in AllFiles(rules) ensures ref in AllFiles(all) {
      var rule :| rule in rules && ref in FilesOf(rule.matcher);
      assert rule in all;
    }
    forall ref | ref in FilesOf(last.matcher) ensures ref in AllFiles(all) {
      assert last in all;
    }
  }

  lemma {:induction false} RoutingReadsNothing(rules: seq<Rule>, msg: Message, ctx: Context, cache: Cache, disk: Disk)
    requires forall rule | rule in rules :: Covers(cache, FilesOf(rule.matcher))
    ensures Routed(rules, msg, ctx, cache, disk) == (FirstMatch(rules, msg, ctx, cache), cache)
  {
    if rules != [] {
      EvalReadsNothing(rules[0].matcher, msg, ctx, cache, disk);
      RoutingReadsNothing(rules[1..], msg, ctx, cache, disk);
    }
  }

  /** What one cycle evaluates against: the lists read by BeginCycle and Preload. */
  function Snapshot(refs: seq<FileRef>, disk: Disk): Cache { UseAll(EMPTY_CACHE, refs, disk) }

  datatype Call = Call(msg: Message, ctx: Context, disk: Disk)

  /** A whole cycle of Evaluate calls, each with the disk as it is at that moment. */
  function RoutedAll(rules: seq<Rule>, cache: Cache, calls: seq<Call>): (seq<Option<Rule>>, Cache)
    decreases |calls|
  {
    if calls == [] then ([], cache)
    else
      var (r, after) := Routed(rules, calls[0].msg, calls[0].ctx, cache, calls[0].disk);
      var (rest, last) := RoutedAll(rules, after, calls[1..]);
      ([r] + rest, last)
  }

  /** After the preload no sequence of evaluations reads a file, changes what is recorded as
      degraded, or sees any list but the preloaded one, however the files change meanwhile. */
  lemma {:induction false} DegradedIsFinal(rules: seq<Rule>, refs: seq<FileRef>, disk: Disk, calls: seq<Call>)
    requires forall ref | ref in AllFiles(rules) :: ref in refs
    ensures var lists := Snapshot(refs, disk);
            var (results, last) := RoutedAll(rules, lists, calls);
            && last == lists
            && |results| == |calls|
            && forall i | 0 <= i < |calls| :: results[i] == FirstMatch(rules, calls[i].msg, calls[i].ctx, lists)
    decreases |calls|
  {
    var lists := Snapshot(refs, disk);
    if calls != [] {
      UseAllCovers(EMPTY_CACHE, refs, disk);
      RoutingReadsNothing(rules, calls[0].msg, calls[0].ctx, lists, calls[0].disk);
      DegradedIsFinal(rules, refs, disk, calls[1..]);
    }
  }

  /** A path is reported degraded exactly when some reference to it could not be read in full. */
  lemma DegradedIsComplete(refs: seq<FileRef>, disk: Disk, path: string)
    ensures path in Snapshot(refs, disk).degraded <==>
            exists ref | ref in refs :: ref.path == path && disk(ref).error.Some?
  {
    UseAllDegrades(EMPTY_CACHE, refs, disk, path);
  }

  /** With every file predicate under an even number of nots, a message claimed while lists
      are short is claimed by some rule once they are complete. */
  lemma ClaimsSurviveRecovery(rules: seq<Rule>, refs: seq<FileRef>, degraded: Disk, healthy: Disk, msg: Message, ctx: Context)
    requires forall rule | rule in rules :: Polarity(rule.matcher, true)
    requires forall ref, e | ref in refs && e in degraded(ref).entries :: e in healthy(ref).entries
    ensures FirstMatch(rules, msg, ctx, Snapshot(refs, degraded)).Some? ==>
            FirstMatch(rules, msg, ctx, Snapshot(refs, healthy)).Some?
  {
    var small, big := Snapshot(refs, degraded), Snapshot(refs, healthy);
    UseAllCovers(EMPTY_CACHE, refs, degraded);
    UseAllCovers(EMPTY_CACHE, refs, healthy);
    assert SubLists(small, big);
    FirstMatchIsFirst(rules, msg, ctx, small);
    FirstMatchIsFirst(rules, msg, ctx, big);
    var claim := FirstMatch(rules, msg, ctx, small);
    if claim.Some? {
      ListsAreMonotone(claim.value.matcher, true, msg, ctx, small, big);
      assert Claims(claim.value, msg, ctx, big);
    }
  }

  /** With every file predicate under an odd number of nots the direction reverses: what no
      rule claims while lists are short, no rule claims once they are complete. */
  lemma RefusalsSurviveRecovery(rules: seq<Rule>, refs: seq<FileRef>, degraded: Disk, healthy: Disk, msg: Message, ctx: Context)
    requires forall rule | rule in rules :: Polarity(rule.matcher, false)
    requires forall ref, e | ref in refs && e in degraded(ref).entries :: e in healthy(ref).entries
    ensures FirstMatch(rules, msg, ctx, Snapshot(refs, degraded)).None? ==>
            FirstMatch(rules, msg, ctx, Snapshot(refs, healthy)).None?
  {
    var small, big := Snapshot(refs, degraded), Snapshot(refs, healthy);
    UseAllCovers(EMPTY_CACHE, refs, degraded);
    UseAllCovers(EMPTY_CACHE, refs, healthy);
    assert SubLists(small, big);
    FirstMatchIsFirst(rules, msg, ctx, small);
    FirstMatchIsFirst(rules, msg, ctx, big);
    var claim := FirstMatch(rules, msg, ctx, big);
    if claim.Some? {
      ListsAreMonotone(claim.value.matcher, false, msg, ctx, small, big);
      assert Claims(claim.value, msg, ctx, small);
    }
  }

  /** Why polarity matters: under a single not, a list that could not be read makes a rule claim
      mail it would leave alone once the list is back. */
  lemma NegatedListsOverclaim(msg: Message, ctx: Context, path: string, entry: string)
    requires DomainsMatch(FromDomains(msg.from), [entry])
    ensures var rule, refs := Rule("r", "", "d", [Eml], Not(FromDomainsFile(path))), [FileRef(Domains, path)];
            && FirstMatch([rule], msg, ctx, Snapshot(refs, (_: FileRef) => Reading([], Some("unreadable")))) == Some(rule)
            && FirstMatch([rule], msg, ctx, Snapshot(refs, (_: FileRef) => Reading([entry], None))) == None
  {
    var rule, ref := Rule("r", "", "d", [Eml], Not(FromDomainsFile(path))), FileRef(Domains, path);
    var empty, full := (_: FileRef) => Reading([], Some("unreadable")), (_: FileRef) => Reading([entry], None);
    assert [ref][1..] == [] && [rule][1..] == [];
    UseAllCovers(EMPTY_CACHE, [ref], empty);
    UseAllCovers(EMPTY_CACHE, [ref], full);
    assert ref in [ref];
    assert !Satisfies(rule.matcher.inner, msg, ctx, Snapshot([ref], empty));
    assert Satisfies(rule.matcher.inner, msg, ctx, Snapshot([ref], full));
  }

  class Engine {
    const rules: seq<Rule>
    const refs: seq<FileRef>
    const files: Files

    constructor (rules: seq<Rule>, refs: seq<FileRef>)
      ensures this.rules == rules && this.refs == refs && fresh(files) && files.Value() == EMPTY_CACHE
    {
      this.rules, this.refs := rules, refs;
      files := new Files();
    }

    method BeginCycle()
      modifies files
      ensures files.Value() == EMPTY_CACHE
    {
      files.BeginCycle();
    }

    method Preload(disk: Disk)
      modifies files
      ensures files.Value() == UseAll(old(files.Value()), refs, disk)
    {
      files.Preload(refs, disk);
    }

    /** First match in config order, reading lists as the trees ask for them. */
    method Evaluate(msg: Message, ctx: Context, disk: Disk) returns (r: Option<Rule>)
      modifies files
      ensures (r, files.Value()) == Routed(rules, msg, ctx, old(files.Value()), disk)
      ensures (forall rule | rule in rules :: Covers(old(files.Value()), FilesOf(rule.matcher))) ==>
                r == FirstMatch(rules, msg, ctx, old(files.Value())) && files.Value() == old(files.Value())
    {
      ghost var before := files.Value();
      if forall rule | rule in rules :: Covers(before, FilesOf(rule.matcher)) {
        RoutingReadsNothing(rules, msg, ctx, before, disk);
      }
      var i := 0;
      while i < |rules|
        invariant 0 <= i <= |rules|
        invariant Routed(rules, msg, ctx, before, disk) == Routed(rules[i..], msg, ctx, files.Value(), disk)
      {
        if AppliesTo(rules[i], msg.account) {
          var claimed := Test(rules[i].matcher, msg, ctx, disk);
          if claimed {
            return Some(rules[i]);
          }
        }
        i := i + 1;
      }
      r := None;
    }

    /** Runs one compiled tree. */
    method Test(m: Match, msg: Message, ctx: Context, disk: Disk) returns (r: bool)
      modifies files
      ensures (r, files.Value()) == Eval(m, msg, ctx, old(files.Value()), disk)
      decreases m, 1
    {
      match m
      case All(children) => r := TestUntil(children, false, msg, ctx, disk);
      case Any(children) => r := TestUntil(children, true, msg, ctx, disk);
      case Not(inner) => r := Test(inner, msg, ctx, disk); r := !r;
      case FromDomainsFile(path) =>
        var list := files.Lookup(FileRef(Domains, path), disk);
        r := DomainsMatch(FromDomains(msg.from), list);
      case FromRegexFile(path) =>
        var list := files.Lookup(FileRef(Patterns, path), disk);
        r := AnyMatches(ctx.libs, list, msg.from);
      case _ => r := Satisfies(m, msg, ctx, EMPTY_CACHE);
    }

    method TestUntil(children: seq<Match>, stop: bool, msg: Message, ctx: Context, disk: Disk)
      returns (r: bool)
      modifies files
      ensures (r, files.Value()) == EvalUntil(children, stop, msg, ctx, old(files.Value()), disk)
      decreases children, 0
    {
      var i := 0;
      while i < |children|
        invariant 0 <= i <= |children|
        invariant EvalUntil(children, stop, msg, ctx, old(files.Value()), disk)
               == EvalUntil(children[i..], stop, msg, ctx, files.Value(), disk)
      {
        assert children[i] in children && children[i..][1..] == children[i + 1..];
        r := Test(children[i], msg, ctx, disk);
        if r == stop {
          return stop;
        }
        i := i + 1;
      }
      r := !stop;
    }
  }

  /** A rule ready to run; a blank dest is no dest. */
  function Bind(c: RuleConfig, m: Match): Rule {
    Rule(c.name, c.account, if Blank(c.dest) then "" else c.dest, c.formats, m)
  }

  /** The references are each file some rule may consult, once, and no other. */
  ghost predicate Collected(refs: seq<FileRef>, rules: seq<Rule>) {
    Distinct(refs) && forall ref :: ref in refs <==> ref in AllFiles(rules)
  }

  lemma CollectedStep(refs: seq<FileRef>, rules: seq<Rule>, last: Rule)
    requires Collected(refs, rules)
    ensures Collected(AddAll(refs, FilesInOrder(last.matcher)), rules + [last])
  {
    AddAllCollects(refs, FilesInOrder(last.matcher));
    FilesInOrderAreFilesOf(last.matcher);
    AllFilesAppend(rules, last);
  }

  /** The rules are the configured ones, each with its compiled tree. */
  ghost predicate Bound(rules: seq<Rule>, configs: seq<RuleConfig>, libs: Libs) {
    && |rules| == |configs|
    && forall i | 0 <= i < |configs| ::
         var m := Compiled(configs[i].tree, libs); m.Ok? && rules[i] == Bind(configs[i], m.value)
  }

  lemma BoundStep(rules: seq<Rule>, configs: seq<RuleConfig>, libs: Libs, last: RuleConfig)
    requires Bound(rules, configs, libs) && Compiled(last.tree, libs).Ok?
    ensures Bound(rules + [Bind(last, Compiled(last.tree, libs).value)], configs + [last], libs)
  {
  }

  /** NewEngine: compiles every rule, in order, and stops at the first that fails. The engine
      it returns references each file its matchers can consult, once, and no other. */
  method NewEngine(configs: seq<RuleConfig>, libs: Libs) returns (engine: Engine?)
    ensures engine == null <==> exists c | c in configs :: Compiled(c.tree, libs).Error?
    ensures engine != null ==> fresh(engine) && fresh(engine.files) && engine.files.Value() == EMPTY_CACHE
    ensures engine != null ==> Bound(engine.rules, configs, libs) && Collected(engine.refs, engine.rules)
  {
    var compiler := new Compiler(libs);
    var rules: seq<Rule> := [];
    var i := 0;
    while i < |configs|
      invariant 0 <= i <= |configs|
      invariant Bound(rules, configs[..i], libs)
      invariant Collected(compiler.refs, rules)
    {
      ghost var before := compiler.refs;
      var m := compiler.Compile(configs[i].tree);
      if m.Error? {
        assert configs[i] in configs;
        return null;
      }
      CollectedStep(before, rules, Bind(configs[i], m.value));
      BoundStep(rules, configs[..i], libs, configs[i]);
      assert configs[..i + 1] == configs[..i] + [configs[i]];
      rules := rules + [Bind(configs[i], m.value)];
      i := i + 1;
    }
    assert configs[..i] == configs;
    engine := new Engine(rules, compiler.refs);
  }
}
