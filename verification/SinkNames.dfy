/** The on-disk names of delivered mail, and reading them back
    (internal/sink/sink.go, internal/mcpserver/record.go). */
module SinkNames {
  import opened Text
  import opened Mail
  import opened Stretches
  import opened FilterEngine

  const MAX_SLUG_LEN := 40
  const NO_SUBJECT_SLUG := "no-subject"
  const HASH_LEN := 16

  type Sum = s: Bytes | |s| == 32 witness seq(32, _ => 0)

  /** The libraries a name depends on: SHA-256, Unicode lower-casing, and the calendar
      (`month` gives `2006/01` for a date in UTC). */
  datatype Libs = Libs(sha256: string -> Sum, lower: string -> string, month: int -> string)

  // ------------------------------------------------------------------------- slug

  predicate IsSlugChar(c: char) { IsLowerLetter(c) || IsDigit(c) }

  predicate IsDash(c: char) { c == '-' }

  predicate IsSlash(c: char) { c == '/' }

  /** What a slug is: the runs of the lowercased subject joined by single dashes, cut to
      length without leaving a dash at the cut. */
  function SlugOf(lowered: string): string {
    var whole := JoinRuns(Runs(lowered, IsSlugChar));
    var cut := if |whole| > MAX_SLUG_LEN then TrimRight(whole[..MAX_SLUG_LEN], IsDash) else whole;
    if cut == "" then NO_SUBJECT_SLUG else cut
  }

  predicate IsNameChar(c: char) { IsSlugChar(c) || c == '-' }

  lemma {:induction false} JoinRunsShape(runs: seq<string>)
    requires forall r | r in runs :: r != "" && All(r, IsSlugChar)
    ensures var j := JoinRuns(runs);
            && All(j, IsNameChar)
            && (j == "" <==> runs == [])
            && (runs != [] ==> j[0] != '-' && j[|j| - 1] != '-')
            && forall i | 0 < i < |j| :: !(j[i - 1] == '-' && j[i] == '-')
  {
    if |runs| > 1 {
      var front, last := runs[..|runs| - 1], runs[|runs| - 1];
      assert last in runs && forall r | r in front :: r in runs;
      JoinRunsShape(front);
      assert IsSlugChar(last[0]) && IsSlugChar(last[|last| - 1]);
    } else if |runs| == 1 {
      assert runs[0] in runs;
      assert IsSlugChar(runs[0][0]) && IsSlugChar(runs[0][|runs[0]| - 1]);
    }
  }

  /** A slug is 1 to 40 characters of [a-z0-9-] and begins and ends with neither a dash nor
      a pair of them. */
  lemma SlugShape(lowered: string)
    ensures var slug := SlugOf(lowered);
            && 1 <= |slug| <= MAX_SLUG_LEN
            && All(slug, IsNameChar)
            && slug[0] != '-' && slug[|slug| - 1] != '-'
            && forall i | 0 < i < |slug| :: !(slug[i - 1] == '-' && slug[i] == '-')
  {
    var runs := Runs(lowered, IsSlugChar);
    JoinRunsShape(runs);
    var whole := JoinRuns(runs);
    if |whole| > MAX_SLUG_LEN {
      var head := whole[..MAX_SLUG_LEN];
      assert head[0] == whole[0] && !IsDash(head[0]);
      TrimRightDrops(head, IsDash);
      assert TrimRight(head, IsDash) == whole[..|TrimRight(head, IsDash)|];
    }
  }

  lemma TrimDashes(whole: string, b: string)
    requires whole != "" ==> whole[0] != '-' && whole[|whole| - 1] != '-'
    requires b == whole || (whole != "" && b == whole + "-")
    ensures Trim(b, IsDash) == whole
  {
    if b != whole {
      assert b[0] == whole[0] && !IsDash(b[0]);
      assert TrimLeft(b, IsDash) == b;
      assert !IsDash(whole[|whole| - 1]);
      assert TrimRight(whole, IsDash) == whole;
      assert IsDash(b[|b| - 1]) && b[..|b| - 1] == whole;
    }
  }

  /** What happens to the builder's text once the loop is over. */
  function Finished(b: string): string {
    var trimmed := Trim(b, IsDash);
    var cut := if |trimmed| > MAX_SLUG_LEN then TrimRight(trimmed[..MAX_SLUG_LEN], IsDash) else trimmed;
    if cut == "" then NO_SUBJECT_SLUG else cut
  }

  lemma FinishedIsSlug(s: string, b: string)
    requires b == Joined(s, IsSlugChar) || (Joined(s, IsSlugChar) != "" && b == Joined(s, IsSlugChar) + "-")
    ensures Finished(b) == SlugOf(s)
  {
    JoinRunsShape(Runs(s, IsSlugChar));
    TrimDashes(Joined(s, IsSlugChar), b);
  }

  /** Slug's loop: one builder and a flag, over the lowercased subject. */
  method Slug(subject: string, libs: Libs) returns (slug: string)
    ensures slug == SlugOf(libs.lower(subject))
  {
    var s := libs.lower(subject);
    var b: string, dash := "", false;
    BuiltAtStart(s, IsSlugChar);
    var i := 0;
    while i < |s|
      invariant 0 <= i <= |s| && Built(s, i, b, dash, IsSlugChar)
    {
      BuiltStep(s, i, b, dash, IsSlugChar);
      if IsSlugChar(s[i]) {
        b := b + [s[i]];
        dash := false;
      } else {
        if !dash && |b| > 0 {
          b := b + "-";
        }
        dash := true;
      }
      i := i + 1;
    }
    assert s[..i] == s;
    FinishedIsSlug(s, b);
    slug := Finished(b);
  }

  // --------------------------------------------------------------------- basename

  function HexDigit(d: nat): char
    requires d < 16
  {
    if d < 10 then Digit(d) else ('a' as int + (d - 10)) as char
  }

  predicate IsHex(c: char) { IsDigit(c) || 'a' <= c <= 'f' }

  /** hex.EncodeToString. */
  function HexEncode(bytes: Bytes): (s: string)
    ensures |s| == 2 * |bytes| && All(s, IsHex)
  {
    if bytes == [] then ""
    else [HexDigit(bytes[0] as int / 16), HexDigit(bytes[0] as int % 16)] + HexEncode(bytes[1..])
  }

  /** The key a message's digest is taken over. */
  function IdentityKey(account: string, id: string): string { account + ":" + id }

  function Identity(account: string, id: string, libs: Libs): (s: string)
    ensures |s| == HASH_LEN && All(s, IsHex)
  {
    HexEncode(libs.sha256(IdentityKey(account, id)))[..HASH_LEN]
  }

  function Basename(msg: Message, libs: Libs): string {
    Dec(if msg.date < 0 then 0 else msg.date) + "-" + Identity(msg.account, msg.id, libs) + "-"
    + SlugOf(libs.lower(msg.subject))
  }

  function Ext(format: Format): string {
    match format
    case Eml => ".eml"
    case Markdown => ".md"
  }

  function DirFor(msg: Message, dest: string, libs: Libs): string { dest + "/" + libs.month(msg.date) }

  function PathFor(msg: Message, dest: string, ext: string, libs: Libs): string {
    DirFor(msg, dest, libs) + "/" + (Basename(msg, libs) + ext)
  }

  // -------------------------------------------------------------------- reading back

  /** filepath.Base. */
  function Base(path: string): string {
    if path == "" then "."
    else
      var trimmed := TrimRight(path, IsSlash);
      if trimmed == "" then "/" else trimmed[LastIndexOf(trimmed, '/') + 1..]
  }

  /** filepath.Ext of a name without separators. */
  function ExtOf(name: string): string {
    var dot := LastIndexOf(name, '.');
    if dot < 0 then "" else name[dot..]
  }

  function Stem(name: string): string { name[..|name| - |ExtOf(name)|] }

  /** The second of at most three dash-separated parts, when there are two. */
  function SecondPart(s: string): Option<string> {
    var first := IndexOf(s, '-');
    if first < 0 then None
    else
      var rest := s[first + 1..];
      var second := IndexOf(rest, '-');
      Some(if second < 0 then rest else rest[..second])
  }

  function MessageIDFromPath(path: string): Option<string> {
    var part := SecondPart(Stem(Base(path)));
    if part.Some? && |part.value| == HASH_LEN && All(part.value, IsHex) then part else None
  }

  lemma FirstIndex(a: string, c: char, b: string)
    requires c !in a
    ensures IndexOf(a + [c] + b, c) == |a|
  {
    var s := a + [c] + b;
    var k := IndexOf(s, c);
    assert s[|a|] == c;
    assert forall i | 0 <= i < |a| :: s[i] != c;
  }

  lemma LastIndex(a: string, c: char, b: string)
    requires c !in b
    ensures LastIndexOf(a + [c] + b, c) == |a|
  {
    var s := a + [c] + b;
    var k := LastIndexOf(s, c);
    assert s[|a|] == c;
    assert forall i | |a| < i < |s| :: s[i] != c;
  }

  /** Everything but the extension of a delivered file's name is drawn from [a-z0-9-]. */
  lemma BasenameShape(msg: Message, libs: Libs)
    ensures var b := Basename(msg, libs); b != "" && All(b, IsNameChar)
  {
    SlugShape(libs.lower(msg.subject));
  }

  /** The last element of a path is the name appended to its directory. */
  lemma BaseOfJoin(dir: string, name: string)
    requires name != "" && '/' !in name
    ensures Base(dir + "/" + name) == name
  {
    var path := dir + "/" + name;
    assert path[|path| - 1] == name[|name| - 1];
    assert TrimRight(path, IsSlash) == path;
    LastIndex(dir, '/', name);
  }

  lemma ExtOfConcat(stem: string, tail: string)
    requires '.' !in tail
    ensures ExtOf(stem + "." + tail) == "." + tail
    ensures Stem(stem + "." + tail) == stem
  {
    LastIndex(stem, '.', tail);
    assert (stem + "." + tail)[|stem|..] == "." + tail;
  }

  /** The name round trip: the archive reader recovers from any delivered path exactly the
      identity digest of the message, whatever its date, subject and extension. */
  lemma NameRoundTrip(msg: Message, dest: string, tail: string, libs: Libs)
    requires '.' !in tail && '/' !in tail
    ensures MessageIDFromPath(PathFor(msg, dest, "." + tail, libs)) == Some(Identity(msg.account, msg.id, libs))
  {
    var base := Basename(msg, libs);
    var name := base + "." + tail;
    BasenameShape(msg, libs);
    assert base + ("." + tail) == name;
    assert '/' !in base;
    BaseOfJoin(DirFor(msg, dest, libs), name);
    ExtOfConcat(base, tail);
    SecondOfThree(Dec(if msg.date < 0 then 0 else msg.date), Identity(msg.account, msg.id, libs),
                  SlugOf(libs.lower(msg.subject)));
  }

  lemma SecondOfThree(a: string, b: string, c: string)
    requires '-' !in a && '-' !in b
    ensures SecondPart(a + "-" + b + "-" + c) == Some(b)
  {
    var s, rest := a + "-" + b + "-" + c, b + "-" + c;
    Assoc(a + "-", b, "-" + c);
    Assoc(a + "-" + b, "-", c);
    Assoc(b, "-", c);
    assert s == a + ['-'] + rest;
    FirstIndex(a, '-', rest);
    assert s[|a| + 1..] == rest;
    FirstIndex(b, '-', c);
    assert rest[..|b|] == b;
  }

  /** No two messages of a set of identity keys share a digest. The digest is 64 bits, so
      this is a property of the mail in play and not of SHA-256. */
  ghost predicate DistinctIdentities(account: string, ids: set<string>, libs: Libs) {
    forall a, b | a in ids && b in ids && Identity(account, a, libs) == Identity(account, b, libs) :: a == b
  }

  lemma PathEndsInExt(msg: Message, dest: string, ext: string, libs: Libs)
    requires ext != ""
    ensures var path := PathFor(msg, dest, ext, libs); path != "" && path[|path| - 1] == ext[|ext| - 1]
  {
  }

  lemma ExtHasTail(format: Format)
    ensures Ext(format) == "." + Ext(format)[1..] && '.' !in Ext(format)[1..] && '/' !in Ext(format)[1..]
    ensures Ext(format)[|Ext(format)| - 1] == if format.Eml? then 'l' else 'd'
  {
  }

  /** Two messages of one account never share a path while their digests differ. */
  lemma PathsIdentifyMessages(
    m: Message, n: Message, destM: string, destN: string, f: Format, g: Format, ids: set<string>, libs: Libs)
    requires m.account == n.account && m.id in ids && n.id in ids && DistinctIdentities(m.account, ids, libs)
    requires PathFor(m, destM, Ext(f), libs) == PathFor(n, destN, Ext(g), libs)
    ensures m.id == n.id && f == g
  {
    ExtHasTail(f);
    ExtHasTail(g);
    NameRoundTrip(m, destM, Ext(f)[1..], libs);
    NameRoundTrip(n, destN, Ext(g)[1..], libs);
    PathEndsInExt(m, destM, Ext(f), libs);
    PathEndsInExt(n, destN, Ext(g), libs);
  }
}
