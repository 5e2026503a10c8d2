/** The filter engine: match trees, the per-cycle cache of externally owned lists,
    and first-match evaluation (internal/filter/files.go, compile.go, engine.go). */
module Filter {
  import opened Text
  import opened Mail

  // ------------------------------------------------------------- external files

  datatype Kind = Domains | Patterns

  datatype FileRef = FileRef(kind: Kind, path: string)

  /** What reading and parsing one list gave: the entries recovered, and the error if
      the file could not be read in full. */
  datatype Reading = Reading(entries: seq<string>, error: Option<string>)

  /** The file system at one instant, as the two list parsers see it. */
  type Disk = FileRef -> Reading

  /** The value of a Files cache. */
  datatype Cache = Cache(
    domains: map<string, seq<string>>, patterns: map<string, seq<string>>, degraded: map<string, string>)
  {
    predicate Holds(ref: FileRef) {
      match ref.kind
      case Domains => ref.path in domains
      case Patterns => ref.path in patterns
    }

    function Entries(ref: FileRef): seq<string>
      requires Holds(ref)
    {
      match ref.kind
      case Domains => domains[ref.path]
      case Patterns => patterns[ref.path]
    }

    /** The list a predicate tests against; a list nothing has read is empty. */
    function List(ref: FileRef): seq<string> {
      if Holds(ref) then Entries(ref) else []
    }
  }

  const EMPTY_CACHE := Cache(map[], map[], map[])

  /** cachedList: read on first use, reuse afterwards, record degradation once. */
  function Use(cache: Cache, ref: FileRef, disk: Disk): Cache {
    if cache.Holds(ref) then cache
    else
      var reading := disk(ref);
      var degraded := if reading.error.Some? then cache.degraded[ref.path := reading.error.value] else cache.degraded;
      match ref.kind
      case Domains => cache.(domains := cache.domains[ref.path := reading.entries], degraded := degraded)
      case Patterns => cache.(patterns := cache.patterns[ref.path := reading.entries], degraded := degraded)
  }

  function UseAll(cache: Cache, refs: seq<FileRef>, disk: Disk): Cache
    decreases |refs|
  {
    if refs == [] then cache else UseAll(Use(cache, refs[0], disk), refs[1..], disk)
  }

  class Files {
    var domains: map<string, seq<string>>
    var patterns: map<string, seq<string>>
    var degraded: map<string, string>

    function Value(): Cache
      reads this
    {
      Cache(domains, patterns, degraded)
    }

    constructor ()
      ensures Value() == EMPTY_CACHE
    {
      domains, patterns, degraded := map[], map[], map[];
    }

    method BeginCycle()
      modifies this
      ensures Value() == EMPTY_CACHE
    {
      domains, patterns, degraded := map[], map[], map[];
    }

    method Lookup(ref: FileRef, disk: Disk) returns (list: seq<string>)
      modifies this
      ensures Value() == Use(old(Value()), ref, disk)
      ensures list == Value().List(ref)
    {
      if Value().Holds(ref) {
        return Value().Entries(ref);
      }
      var reading := disk(ref);
      if reading.error.Some? {
        degraded := degraded[ref.path := reading.error.value];
      }
      if ref.kind.Domains? {
        domains := domains[ref.path := reading.entries];
      } else {
        patterns := patterns[ref.path := reading.entries];
      }
      list := reading.entries;
    }

    method Preload(refs: seq<FileRef>, disk: Disk)
      modifies this
      ensures Value() == UseAll(old(Value()), refs, disk)
    {
      var i := 0;
      while i < |refs|
        invariant 0 <= i <= |refs|
        invariant UseAll(old(Value()), refs, disk) == UseAll(Value(), refs[i..], disk)
      {
        var _ := Lookup(refs[i], disk);
        i := i + 1;
      }
    }
  }

  /** Reading a list of references caches each of them, once, and nothing else. */
  lemma {:induction false} UseAllCovers(cache: Cache, refs: seq<FileRef>, disk: Disk)
    ensures var after := UseAll(cache, refs, disk);
            && (forall ref | cache.Holds(ref) :: after.Holds(ref) && after.Entries(ref) == cache.Entries(ref))
            && (forall ref | ref in refs :: after.Holds(ref))
            && (forall ref | after.Holds(ref) && !cache.Holds(ref) :: ref in refs && after.Entries(ref) == disk(ref).entries)
    decreases |refs|
  {
    if refs != [] {
      UseAllCovers(Use(cache, refs[0], disk), refs[1..], disk);
      assert forall ref :: ref in refs <==> ref == refs[0] || ref in refs[1..];
    }
  }

  /** A path becomes degraded exactly when a reference to it, not yet cached, reads with an error. */
  lemma {:induction false} UseAllDegrades(cache: Cache, refs: seq<FileRef>, disk: Disk, path: string)
    ensures path in UseAll(cache, refs, disk).degraded <==>
            path in cache.degraded || exists ref | ref in refs && !cache.Holds(ref) :: ref.path == path && disk(ref).error.Some?
    decreases |refs|
  {
    if refs != [] {
      var next := Use(cache, refs[0], disk);
      UseAllDegrades(next, refs[1..], disk, path);
      assert forall ref :: ref in refs <==> ref == refs[0] || ref in refs[1..];
      assert forall ref :: next.Holds(ref) <==> cache.Holds(ref) || ref == refs[0];
    }
  }

  // ------------------------------------------------------------------ match trees

  /** The libraries a predicate calls: RE2, and Go's duration and boolean parsers. */
  datatype Libs = Libs(
    valid: string -> bool, matches: (string, string) -> bool,
    duration: string -> Option<int>, parseBool: string -> Option<bool>)

  datatype Field = FromField | ToField | SubjectField

  /** A compiled match tree: each constructor is one of the closures compile.go builds. */
  datatype Match =
    | All(children: seq<Match>)
    | Any(children: seq<Match>)
    | Not(inner: Match)
    | FromDomainList(wanted: seq<string>)
    | FromDomainsFile(path: string)
    | Regex(field: Field, pattern: string)
    | FromRegexFile(path: string)
    | Header(name: string, pattern: string)
    | HasAttachment(want: bool)
    | HasLabel(name: string)
    | Age(older: bool, duration: int)

  /** One evaluation's surroundings: the libraries and the clock. */
  datatype Context = Context(libs: Libs, now: int)

  /** Any of have equals, or is a subdomain of, any of want. */
  predicate DomainsMatch(have: seq<string>, want: seq<string>) {
    exists i, j | 0 <= i < |have| && 0 <= j < |want| :: IsOrUnder(NormalForm(have[i]), want[j])
  }

  predicate IsOrUnder(domain: string, wanted: string) {
    domain == wanted || HasSuffix(domain, "." + wanted)
  }

  function NormalForm(domain: string): string {
    var d := ToLower(TrimSpace(domain));
    if HasSuffix(d, ".") then d[..|d| - 1] else d
  }

  predicate AnyMatches(libs: Libs, patterns: seq<string>, texts: seq<string>) {
    exists i, j | 0 <= i < |patterns| && 0 <= j < |texts| :: libs.matches(patterns[i], texts[j])
  }

  function FieldTexts(field: Field, msg: Message): seq<string> {
    match field
    case FromField => msg.from
    case ToField => msg.recipients
    case SubjectField => [msg.subject]
  }

  /** What a match tree means when its lists are those of the cache: the reference
      the lazy, short-circuiting evaluation below is proved against. */
  predicate Satisfies(m: Match, msg: Message, ctx: Context, lists: Cache) {
    match m
    case All(children) => forall c | c in children :: Satisfies(c, msg, ctx, lists)
    case Any(children) => exists c | c in children :: Satisfies(c, msg, ctx, lists)
    case Not(inner) => !Satisfies(inner, msg, ctx, lists)
    case FromDomainList(wanted) => DomainsMatch(FromDomains(msg.from), wanted)
    case FromDomainsFile(path) => DomainsMatch(FromDomains(msg.from), lists.List(FileRef(Domains, path)))
    case Regex(field, pattern) => AnyMatches(ctx.libs, [pattern], FieldTexts(field, msg))
    case FromRegexFile(path) => AnyMatches(ctx.libs, lists.List(FileRef(Patterns, path)), msg.from)
    case Header(name, pattern) => AnyMatches(ctx.libs, [pattern], HeaderValues(msg, name))
    case HasAttachment(want) => (msg.attachments != []) == want
    case HasLabel(name) => name in msg.labels
    case Age(older, duration) =>
      msg.date != ZERO_TIME && if older then ctx.now - msg.date > duration else ctx.now - msg.date < duration
  }

  /** Every file some evaluation of the tree may consult. */
  function FilesOf(m: Match): (refs: set<FileRef>) {
    match m
    case All(children) => set c, ref | c in children && ref in FilesOf(c) :: ref
    case Any(children) => set c, ref | c in children && ref in FilesOf(c) :: ref
    case Not(inner) => FilesOf(inner)
    case FromDomainsFile(path) => {FileRef(Domains, path)}
    case FromRegexFile(path) => {FileRef(Patterns, path)}
    case _ => {}
  }

  ghost predicate Covers(cache: Cache, refs: set<FileRef>) { forall ref | ref in refs :: cache.Holds(ref) }

  /** Evaluation as the closures perform it: left to right, stopping at the first
      child that decides, reading each list when it is first needed. */
  function Eval(m: Match, msg: Message, ctx: Context, cache: Cache, disk: Disk): (bool, Cache)
    decreases m, 1
  {
    match m
    case All(children) => EvalUntil(children, false, msg, ctx, cache, disk)
    case Any(children) => EvalUntil(children, true, msg, ctx, cache, disk)
    case Not(inner) => var (r, after) := Eval(inner, msg, ctx, cache, disk); (!r, after)
    case FromDomainsFile(path) =>
      var after := Use(cache, FileRef(Domains, path), disk);
      (Satisfies(m, msg, ctx, after), after)
    case FromRegexFile(path) =>
      var after := Use(cache, FileRef(Patterns, path), disk);
      (Satisfies(m, msg, ctx, after), after)
    case _ => (Satisfies(m, msg, ctx, cache), cache)
  }

  /** The combinator loop: returns `stop` at the first child that evaluates to it. */
  function EvalUntil(children: seq<Match>, stop: bool, msg: Message, ctx: Context,
                     cache: Cache, disk: Disk): (bool, Cache)
    decreases children, 0
  {
    if children == [] then (!stop, cache)
    else
      var (r, after) := Eval(children[0], msg, ctx, cache, disk);
      if r == stop then (stop, after) else EvalUntil(children[1..], stop, msg, ctx, after, disk)
  }

  // ---------------------------------------------------------------------- theorems

  /** Once every file a tree can consult is cached, evaluating it reads nothing, leaves
      the cache alone, and means exactly what the cached lists say. */
  lemma {:induction false} EvalReadsNothing(m: Match, msg: Message, ctx: Context, cache: Cache, disk: Disk)
    requires Covers(cache, FilesOf(m))
    ensures Eval(m, msg, ctx, cache, disk) == (Satisfies(m, msg, ctx, cache), cache)
    decreases m, 1
  {
    match m
    case All(children) => EvalUntilReadsNothing(children, false, msg, ctx, cache, disk);
    case Any(children) => EvalUntilReadsNothing(children, true, msg, ctx, cache, disk);
    case Not(inner) => EvalReadsNothing(inner, msg, ctx, cache, disk);
    case _ =>
  }

  lemma {:induction false} EvalUntilReadsNothing(
    children: seq<Match>, stop: bool, msg: Message, ctx: Context, cache: Cache, disk: Disk)
    requires forall c | c in children :: Covers(cache, FilesOf(c))
    ensures EvalUntil(children, stop, msg, ctx, cache, disk)
         == ((exists c | c in children :: Satisfies(c, msg, ctx, cache) == stop) == stop, cache)
    decreases children, 0
  {
    if children != [] {
      assert forall c | c in children :: c == children[0] || c in children[1..];
      EvalReadsNothing(children[0], msg, ctx, cache, disk);
      EvalUntilReadsNothing(children[1..], stop, msg, ctx, cache, disk);
    }
  }

  /** Every list of `small` holds only entries that the same list of `big` holds. */
  ghost predicate SubLists(small: Cache, big: Cache) {
    forall ref, e | e in small.List(ref) :: e in big.List(ref)
  }

  /** Every file predicate of the tree sits under an even (or odd) number of nots. */
  predicate Polarity(m: Match, even: bool) {
    match m
    case All(children) => forall c | c in children :: Polarity(c, even)
    case Any(children) => forall c | c in children :: Polarity(c, even)
    case Not(inner) => Polarity(inner, !even)
    case FromDomainsFile(_) => even
    case FromRegexFile(_) => even
    case _ => true
  }

  lemma {:induction false} ListsAreMonotone(
    m: Match, even: bool, msg: Message, ctx: Context, small: Cache, big: Cache)
    requires Polarity(m, even) && SubLists(small, big)
    ensures even && Satisfies(m, msg, ctx, small) ==> Satisfies(m, msg, ctx, big)
    ensures !even && Satisfies(m, msg, ctx, big) ==> Satisfies(m, msg, ctx, small)
  {
    match m
    case All(children) => forall c | c in children { ListsAreMonotone(c, even, msg, ctx, small, big); }
    case Any(children) => forall c | c in children { ListsAreMonotone(c, even, msg, ctx, small, big); }
    case Not(inner) => ListsAreMonotone(inner, !even, msg, ctx, small, big);
    case FromDomainsFile(path) =>
      var have, ref := FromDomains(msg.from), FileRef(Domains, path);
      if DomainsMatch(have, small.List(ref)) {
        var i, j :| 0 <= i < |have| && 0 <= j < |small.List(ref)| && IsOrUnder(NormalForm(have[i]), small.List(ref)[j]);
        assert small.List(ref)[j] in big.List(ref);
        assert DomainsMatch(have, big.List(ref));
      }
    case FromRegexFile(path) =>
      var ref := FileRef(Patterns, path);
      if AnyMatches(ctx.libs, small.List(ref), msg.from) {
        var i, j :| 0 <= i < |small.List(ref)| && 0 <= j < |msg.from| && ctx.libs.matches(small.List(ref)[i], msg.from[j]);
        assert small.List(ref)[i] in big.List(ref);
      }
    case _ =>
  }
}
