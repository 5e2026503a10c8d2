/** The names attachments are written under (internal/sink/markdown.go). */
module Attachments {
  import opened Text
  import opened Seqs
  import opened Stretches
  import opened Mail
  import opened SinkNames

  const FALLBACK := "attachment"
  const SUFFIX := ".attachment"
  const MAX_NAME_LEN := 120
  const MAX_EXT_LEN := 16
  const MARKDOWN_EXT := ".md"
  const EML_EXT := ".eml"

  predicate IsEdge(c: char) { c == '-' || c == '.' }

  predicate IsSeparator(c: char) { c == '/' || c == '\\' }

  // ----------------------------------------------------------------- sanitizing a name

  /** What follows the last separator of either kind. */
  function LastElement(name: string): string {
    var i := Higher(LastIndexOf(name, '/'), LastIndexOf(name, '\\'));
    name[i + 1..]
  }

  function Higher(a: int, b: int): int { if a < b then b else a }

  function Lesser(a: int, b: int): int { if a < b then a else b }

  /** The extension a shortened name keeps. */
  function KeptExt(clean: string): string { if |ExtOf(clean)| > MAX_EXT_LEN then "" else ExtOf(clean) }

  /** The name cut to length, keeping a short extension. */
  function Shortened(clean: string): string {
    if |clean| <= MAX_NAME_LEN then clean else CutTo(clean, KeptExt(clean), MAX_NAME_LEN - |KeptExt(clean)|)
  }

  /** The stem cut to at most `keep` characters, and the extension. */
  function CutTo(clean: string, ext: string, keep: int): string {
    var stem := clean[..Higher(|clean| - |ext|, 0)];
    TrimRight(if |stem| > keep >= 0 then stem[..keep] else stem, IsEdge) + ext
  }

  /** What a sanitized name is: the acceptable stretches of the last path element joined by
      dashes, without dots or dashes at its ends, cut to length. */
  function Sanitized(name: string): string {
    var clean := Trim(Joined(LastElement(name), IsSafe), IsEdge);
    if clean == "" then FALLBACK else Shortened(clean)
  }

  /** A name that can be joined onto a directory: 1 to `max` safe characters, no separator,
      starting and ending with neither a dot nor a dash. */
  predicate Tame(s: string, max: nat) {
    1 <= |s| <= max && All(s, IsSafe) && !IsEdge(s[0]) && !IsEdge(s[|s| - 1])
  }

  lemma CutIsTame(clean: string, cut: nat)
    requires clean != "" && Tame(clean, |clean|) && 1 <= cut <= |clean|
    ensures var r := TrimRight(clean[..cut], IsEdge); Tame(r, cut) && r == clean[..|r|]
  {
    var head := clean[..cut];
    assert head[0] == clean[0];
    TrimRightDrops(head, IsEdge);
    TrimRightStops(head, IsEdge);
    var r := TrimRight(head, IsEdge);
    assert r == head[..|r|] == clean[..|r|];
    AllSlice(clean, 0, |r|, IsSafe);
  }

  lemma CutAndExtIsTame(clean: string, ext: string, cut: nat, max: nat)
    requires clean != "" && Tame(clean, |clean|) && 1 <= cut <= |clean| - |ext| && cut + |ext| <= max
    requires ext == clean[|clean| - |ext|..]
    ensures Tame(TrimRight(clean[..cut], IsEdge) + ext, max)
  {
    CutIsTame(clean, cut);
    var head := TrimRight(clean[..cut], IsEdge);
    AllSlice(clean, |clean| - |ext|, |clean|, IsSafe);
    AllConcat(head, ext, IsSafe);
    assert (head + ext)[0] == head[0];
    assert ext != "" ==> (head + ext)[|head + ext| - 1] == ext[|ext| - 1] == clean[|clean| - 1];
  }

  lemma ExtIsShorter(name: string)
    requires name != "" && name[0] != '.'
    ensures |ExtOf(name)| < |name| && ExtOf(name) == name[|name| - |ExtOf(name)|..]
    ensures Stem(name) != "" && Stem(name)[0] == name[0]
  {
    var dot := LastIndexOf(name, '.');
    assert dot != 0;
  }

  lemma KeptExtIsTail(clean: string)
    requires clean != "" && clean[0] != '.'
    ensures var ext := KeptExt(clean); |ext| <= MAX_EXT_LEN && |ext| < |clean| && ext == clean[|clean| - |ext|..]
  {
    ExtIsShorter(clean);
  }

  lemma CutToIsTame(clean: string, ext: string, max: nat)
    requires clean != "" && Tame(clean, |clean|) && |ext| < |clean| && |ext| < max
    requires ext == clean[|clean| - |ext|..]
    ensures Tame(CutTo(clean, ext, max - |ext|), max)
  {
    var keep, stem := max - |ext|, clean[..|clean| - |ext|];
    var cut := Lesser(|stem|, keep);
    assert (if |stem| > keep then stem[..keep] else stem) == clean[..cut];
    CutAndExtIsTame(clean, ext, cut, max);
  }

  lemma ShortenedIsTame(clean: string)
    requires clean != "" && Tame(clean, |clean|)
    ensures Tame(Shortened(clean), MAX_NAME_LEN)
  {
    if |clean| > MAX_NAME_LEN {
      KeptExtIsTail(clean);
      CutToIsTame(clean, KeptExt(clean), MAX_NAME_LEN);
    }
  }

  lemma TrimmedIsTame(joined: string)
    requires All(joined, IsSafe) && Trim(joined, IsEdge) != ""
    ensures Tame(Trim(joined, IsEdge), |Trim(joined, IsEdge)|)
  {
    var i := TrimKeeps(joined, IsEdge);
    AllSlice(joined, i, i + |Trim(joined, IsEdge)|, IsSafe);
  }

  lemma JoinedIsSafe(s: string)
    ensures All(Joined(s, IsSafe), IsSafe)
  {
    JoinRunsKeeps(Runs(s, IsSafe), IsSafe);
  }

  /** Whatever the sender chose, the sanitized name is tame. */
  lemma SanitizedIsTame(name: string)
    ensures Tame(Sanitized(name), MAX_NAME_LEN)
  {
    var joined := Joined(LastElement(name), IsSafe);
    JoinedIsSafe(LastElement(name));
    if Trim(joined, IsEdge) != "" {
      TrimmedIsTame(joined);
      ShortenedIsTame(Trim(joined, IsEdge));
    } else {
      assert All(FALLBACK, IsSafe);
    }
  }

  lemma TrimDangling(joined: string, b: string)
    requires b == joined || (joined != "" && b == joined + "-")
    ensures Trim(b, IsEdge) == Trim(joined, IsEdge)
  {
    if b != joined {
      TrimLeftDangling(joined);
    }
  }

  lemma {:induction false} TrimLeftDangling(joined: string)
    ensures Trim(joined + "-", IsEdge) == Trim(joined, IsEdge)
  {
    if joined == "" {
      assert (joined + "-")[1..] == "";
    } else if IsEdge(joined[0]) {
      assert (joined + "-")[1..] == joined[1..] + "-";
      TrimLeftDangling(joined[1..]);
    } else {
      assert (joined + "-")[..|joined|] == joined;
    }
  }

  /** The builder loop, which may leave a dash at the end. */
  method BuildName(s: string) returns (b: string)
    ensures b == Joined(s, IsSafe) || (Joined(s, IsSafe) != "" && b == Joined(s, IsSafe) + "-")
  {
    var dash := false;
    b := "";
    BuiltAtStart(s, IsSafe);
    var i := 0;
    while i < |s|
      invariant 0 <= i <= |s| && Built(s, i, b, dash, IsSafe)
    {
      BuiltStep(s, i, b, dash, IsSafe);
      if IsSafe(s[i]) {
        b := b + [s[i]];
        dash := false;
      } else {
        if !dash && |b| > 0 {
          b := b + "-";
        }
        dash := true;
      }
      i := i + 1;
    }
    assert s[..i] == s;
  }

  method SanitizeFilename(name: string) returns (r: string)
    ensures r == Sanitized(name)
  {
    var b := BuildName(LastElement(name));
    TrimDangling(Joined(LastElement(name), IsSafe), b);
    var clean := Trim(b, IsEdge);
    if clean == "" {
      return FALLBACK;
    }
    r := Shortened(clean);
  }

  // ---------------------------------------------------------- neutral, distinct names

  predicate Reserved(name: string) {
    HasSuffix(ToLower(name), MARKDOWN_EXT) || HasSuffix(ToLower(name), EML_EXT)
  }

  function Neutral(name: string): string { if Reserved(name) then name + SUFFIX else name }

  function Numbered(display: string, n: nat): string {
    Stem(display) + "-" + Dec(n) + ExtOf(display)
  }

  /** The name the n-th attempt would be written under, as a case-insensitive disk sees it. */
  function Key(display: string, n: nat): string { ToLower(Neutral(Numbered(display, n))) }

  datatype AttachmentFile = AttachmentFile(display: string, name: string)

  lemma LastIs(s: string, c: char, k: nat)
    requires k < |s| && s[k] == c && c !in s[k + 1..]
    ensures LastIndexOf(s, c) == k
  {
    assert s == s[..k] + [c] + s[k + 1..];
    LastIndex(s[..k], c, s[k + 1..]);
  }

  lemma ExtKeepsCase(name: string)
    ensures ExtOf(ToLower(name)) == ToLower(ExtOf(name))
  {
    var dot, lowered := LastIndexOf(name, '.'), ToLower(name);
    assert forall i | 0 <= i < |name| :: lowered[i] == '.' <==> name[i] == '.';
    if dot >= 0 {
      assert forall i | dot < i < |name| :: name[i] == name[dot + 1..][i - dot - 1];
      LastIs(lowered, '.', dot);
      assert lowered[dot..] == ToLower(name[dot..]);
    }
  }

  lemma SuffixIsExt(s: string, tail: string)
    requires '.' !in tail
    ensures HasSuffix(s, "." + tail) <==> ExtOf(s) == "." + tail
  {
    if HasSuffix(s, "." + tail) {
      var stem := s[..|s| - |tail| - 1];
      assert s == stem + "." + tail;
      ExtOfConcat(stem, tail);
    }
  }

  predicate ReservedExt(ext: string) { ext == MARKDOWN_EXT || ext == EML_EXT }

  /** A name is reserved by its extension alone. */
  lemma ReservedByExt(name: string)
    ensures Reserved(name) <==> ReservedExt(ToLower(ExtOf(name)))
  {
    ExtKeepsCase(name);
    var lowered := ToLower(name);
    assert MARKDOWN_EXT == "." + "md";
    SuffixIsExt(lowered, "md");
    assert EML_EXT == "." + "eml";
    SuffixIsExt(lowered, "eml");
  }

  /** No file is written under a name that reads as a delivered message. */
  lemma NeutralIsNotReserved(name: string)
    ensures !Reserved(Neutral(name))
  {
    if Reserved(name) {
      var tail := SUFFIX[1..];
      assert SUFFIX == "." + tail && name + SUFFIX == name + "." + tail;
      ExtOfConcat(name, tail);
      ReservedByExt(name + SUFFIX);
      assert |ToLower(ExtOf(name + SUFFIX))| == |SUFFIX|;
    }
  }

  lemma NumberedExt(display: string, n: nat)
    ensures ExtOf(Numbered(display, n)) == ExtOf(display)
  {
    var stem, ext := Stem(display) + "-" + Dec(n), ExtOf(display);
    DecHasNoDot(n);
    if ext != "" {
      var dot := LastIndexOf(display, '.');
      assert ext == "." + ext[1..] && ext[1..] == display[dot + 1..];
      assert stem + ext == stem + "." + ext[1..];
      ExtOfConcat(stem, ext[1..]);
    } else {
      assert Stem(display) == display && '.' !in stem + ext;
    }
  }

  lemma DecHasNoDot(n: nat)
    ensures '.' !in Dec(n)
  {
  }

  lemma LowerDec(n: nat)
    ensures ToLower(Dec(n)) == Dec(n)
  {
    assert forall i | 0 <= i < |Dec(n)| :: IsDigit(Dec(n)[i]);
  }

  /** What every attempt for one attachment ends in. */
  function Tail(display: string): string { ExtOf(display) + (if Reserved(display) then SUFFIX else "") }

  lemma NumberedReserved(display: string, n: nat)
    ensures Reserved(Numbered(display, n)) <==> Reserved(display)
  {
    NumberedExt(display, n);
    ReservedByExt(display);
    ReservedByExt(Numbered(display, n));
  }

  lemma KeyParts(display: string, n: nat)
    ensures Key(display, n) == ToLower(Stem(display) + "-") + Dec(n) + ToLower(Tail(display))
  {
    NumberedReserved(display, n);
    var front := Stem(display) + "-";
    Assoc(front + Dec(n), ExtOf(display), SUFFIX);
    assert Neutral(Numbered(display, n)) == front + Dec(n) + Tail(display);
    LowerInParts(front, Dec(n), Tail(display));
    LowerDec(n);
  }

  lemma LowerInParts(a: string, b: string, c: string)
    ensures ToLower(a + b + c) == ToLower(a) + ToLower(b) + ToLower(c)
  {
    ToLowerConcat(a + b, c);
    ToLowerConcat(a, b);
  }

  /** Different attempts give names a case-insensitive disk tells apart. */
  lemma KeyInjective(display: string, m: nat, n: nat)
    requires Key(display, m) == Key(display, n)
    ensures m == n
  {
    KeyParts(display, m);
    KeyParts(display, n);
    var front, tail := ToLower(Stem(display) + "-"), ToLower(Tail(display));
    CancelSuffix(front + Dec(m), front + Dec(n), tail);
    CancelPrefix(front, Dec(m), Dec(n));
    DecInjective(m, n);
  }

  /** Different numbers give different keys. */
  ghost predicate TellsApart(key: nat -> string) { forall m, n | key(m) == key(n) :: m == n }

  /** The pigeonhole: attempts that were all taken are no more than the names there are. */
  lemma {:induction false} TriedAreTaken(key: nat -> string, n: nat, used: set<string>)
    requires TellsApart(key) && n >= 2 && forall k | 2 <= k < n :: key(k) in used
    ensures n - 2 <= |used|
    decreases n
  {
    if n > 2 {
      var last := key(n - 1);
      forall k | 2 <= k < n - 1 ensures key(k) in used - {last} {
        assert key(k) == last ==> k == n - 1;
      }
      TriedAreTaken(key, n - 1, used - {last});
    }
  }

  /** The keys of one attachment's attempts. */
  function Keys(display: string): nat -> string { (n: nat) => Key(display, n) }

  lemma KeysTellApart(display: string)
    ensures TellsApart(Keys(display))
  {
    forall m, n | Keys(display)(m) == Keys(display)(n) ensures m == n {
      KeyInjective(display, m, n);
    }
  }

  /** The names already given, as a case-insensitive disk sees them. */
  function Taken(files: seq<AttachmentFile>): set<string> { set f | f in files :: ToLower(f.name) }

  /** The name an attachment gets after those before it: its own where that is free, and else the
      first free number from 2. */
  ghost predicate Chosen(before: seq<AttachmentFile>, filename: string, file: AttachmentFile) {
    var display := Sanitized(filename);
    && file.name == Neutral(file.display)
    && if ToLower(Neutral(display)) !in Taken(before) then file.display == display
       else exists n :: IsFirstFree(Taken(before), Keys(display), n) && file.display == Numbered(display, n)
  }

  ghost predicate IsFirstFree(taken: set<string>, key: nat -> string, n: nat) {
    n >= 2 && key(n) !in taken && forall k | 2 <= k < n :: key(k) in taken
  }

  ghost predicate AllChosen(filenames: seq<string>, files: seq<AttachmentFile>) { Threaded(Chosen, filenames, files) }

  lemma TakenAtMost(files: seq<AttachmentFile>)
    ensures |Taken(files)| <= |files|
  {
    if files != [] {
      var front, last := files[..|files| - 1], files[|files| - 1];
      assert forall f :: f in files <==> f in front || f == last;
      assert Taken(files) == Taken(front) + {ToLower(last.name)};
      TakenAtMost(front);
    }
  }

  /** The search for a free number ends, on every input: it has tried no more names than are taken. */
  method FirstFree(used: set<string>, key: nat -> string) returns (n: nat)
    requires TellsApart(key)
    ensures IsFirstFree(used, key, n)
  {
    n := 2;
    while key(n) in used
      invariant n >= 2 && forall k | 2 <= k < n :: key(k) in used
      decreases |used| + 2 - n
    {
      TriedAreTaken(key, n + 1, used);
      n := n + 1;
    }
  }

  method NameNext(files: seq<AttachmentFile>, used: set<string>, filename: string) returns (file: AttachmentFile)
    requires used == Taken(files)
    ensures Chosen(files, filename, file)
  {
    var display := SanitizeFilename(filename);
    var name := Neutral(display);
    if ToLower(name) in used {
      KeysTellApart(display);
      var n := FirstFree(used, Keys(display));
      display := Numbered(display, n);
      name := Neutral(display);
    }
    file := AttachmentFile(display, name);
  }

  lemma TakenStep(files: seq<AttachmentFile>, file: AttachmentFile)
    ensures Taken(files + [file]) == Taken(files) + {ToLower(file.name)}
  {
    assert forall f :: f in files + [file] <==> f in files || f == file;
  }

  /** The names a message's attachments came under. */
  function Filenames(msg: Message): (names: seq<string>)
    ensures |names| == |msg.attachments|
  {
    seq(|msg.attachments|, i requires 0 <= i < |msg.attachments| => msg.attachments[i].filename)
  }

  method AttachmentFiles(filenames: seq<string>) returns (files: seq<AttachmentFile>)
    ensures AllChosen(filenames, files)
  {
    files := [];
    var used: set<string> := {};
    var i := 0;
    while i < |filenames|
      invariant 0 <= i <= |filenames|
      invariant used == Taken(files) && AllChosen(filenames[..i], files)
    {
      var file := NameNext(files, used, filenames[i]);
      ThreadedNext(Chosen, filenames, i, files, file);
      TakenStep(files, file);
      used := used + {ToLower(file.name)};
      files := files + [file];
      i := i + 1;
    }
    assert filenames[..i] == filenames;
  }

  // ------------------------------------------------------------------------ theorems

  lemma FirstFreeIsEarly(before: seq<AttachmentFile>, display: string, n: nat)
    requires IsFirstFree(Taken(before), Keys(display), n)
    ensures n <= |before| + 2
  {
    KeysTellApart(display);
    TriedAreTaken(Keys(display), n, Taken(before));
    TakenAtMost(before);
  }

  /** The choice leaves nothing open: two runs over the same names agree. */
  lemma ChoiceIsUnique(before: seq<AttachmentFile>, filename: string, a: AttachmentFile, b: AttachmentFile)
    requires Chosen(before, filename, a) && Chosen(before, filename, b)
    ensures a == b
  {
    var display := Sanitized(filename);
    if ToLower(Neutral(display)) in Taken(before) {
      var m :| IsFirstFree(Taken(before), Keys(display), m) && a.display == Numbered(display, m);
      var n :| IsFirstFree(Taken(before), Keys(display), n) && b.display == Numbered(display, n);
      assert m <= n && n <= m;
    }
  }

  lemma ChosenIsFree(before: seq<AttachmentFile>, filename: string, file: AttachmentFile)
    requires Chosen(before, filename, file)
    ensures ToLower(file.name) !in Taken(before)
  {
  }

  /** No two attachments of a message share a file, on any disk: the names differ ignoring case. */
  lemma NamesAreDistinct(filenames: seq<string>, files: seq<AttachmentFile>, i: nat, j: nat)
    requires AllChosen(filenames, files) && i < j < |files|
    ensures ToLower(files[i].name) != ToLower(files[j].name)
  {
    ChosenIsFree(files[..j], filenames[j], files[j]);
    assert files[..j][i] == files[i];
  }

  lemma DecIsSafe(n: nat)
    ensures All(Dec(n), IsSafe) && !IsEdge(Dec(n)[|Dec(n)| - 1])
  {
    var s := Dec(n);
    assert forall i | 0 <= i < |s| :: IsDigit(s[i]);
  }

  lemma PartsAreTame(stem: string, number: string, ext: string)
    requires All(stem, IsSafe) && All(number, IsSafe) && All(ext, IsSafe)
    requires stem != "" && !IsEdge(stem[0]) && number != "" && !IsEdge(number[|number| - 1])
    requires ext != "" ==> !IsEdge(ext[|ext| - 1])
    ensures Tame(stem + "-" + number + ext, |stem| + 1 + |number| + |ext|)
  {
    assert All("-", IsSafe);
    AllConcat(stem, "-", IsSafe);
    AllConcat(stem + "-", number, IsSafe);
    AllConcat(stem + "-" + number, ext, IsSafe);
    var r := stem + "-" + number + ext;
    assert r[0] == stem[0];
    assert r[|r| - 1] == if ext != "" then ext[|ext| - 1] else number[|number| - 1];
  }

  lemma InsertedIsTame(display: string, cut: nat, number: string, max: nat)
    requires Tame(display, max) && 1 <= cut <= |display|
    requires All(number, IsSafe) && number != "" && !IsEdge(number[|number| - 1])
    ensures Tame(display[..cut] + "-" + number + display[cut..], max + 1 + |number|)
  {
    AllSlice(display, 0, cut, IsSafe);
    AllSlice(display, cut, |display|, IsSafe);
    var stem, ext := display[0..cut], display[cut..|display|];
    assert stem == display[..cut] && ext == display[cut..];
    PartsAreTame(stem, number, ext);
    TameGrows(stem + "-" + number + ext, |display| + 1 + |number|, max + 1 + |number|);
  }

  lemma NumberedIsTame(display: string, n: nat)
    requires Tame(display, MAX_NAME_LEN)
    ensures Tame(Numbered(display, n), MAX_NAME_LEN + 1 + |Dec(n)|)
  {
    ExtIsShorter(display);
    DecIsSafe(n);
    NumberedInserts(display, n);
    InsertedIsTame(display, |display| - |ExtOf(display)|, Dec(n), MAX_NAME_LEN);
  }

  lemma NumberedInserts(display: string, n: nat)
    ensures var cut := |display| - |ExtOf(display)|; Numbered(display, n) == display[..cut] + "-" + Dec(n) + display[cut..]
  {
  }

  lemma ChosenDisplay(before: seq<AttachmentFile>, filename: string, file: AttachmentFile) returns (n: nat)
    requires Chosen(before, filename, file)
    ensures n <= |before| + 2
    ensures file.display == Sanitized(filename) || file.display == Numbered(Sanitized(filename), n)
  {
    var display := Sanitized(filename);
    n := 0;
    if ToLower(Neutral(display)) in Taken(before) {
      n :| IsFirstFree(Taken(before), Keys(display), n) && file.display == Numbered(display, n);
      FirstFreeIsEarly(before, display, n);
    }
  }

  lemma TameGrows(s: string, max: nat, more: nat)
    requires Tame(s, max) && max <= more
    ensures Tame(s, more)
  {
  }

  lemma ChosenDisplayIsTame(before: seq<AttachmentFile>, filename: string, file: AttachmentFile, count: nat)
    requires Chosen(before, filename, file) && |before| < count
    ensures Tame(file.display, MAX_NAME_LEN + 1 + |Dec(count + 1)|)
  {
    var n := ChosenDisplay(before, filename, file);
    DisplayIsTame(filename, n, count, file.display);
  }

  lemma DisplayIsTame(filename: string, n: nat, count: nat, display: string)
    requires n <= count + 1 && (display == Sanitized(filename) || display == Numbered(Sanitized(filename), n))
    ensures Tame(display, MAX_NAME_LEN + 1 + |Dec(count + 1)|)
  {
    SanitizedIsTame(filename);
    NumberedIsTame(Sanitized(filename), n);
    DecLengthMonotone(n, count + 1);
    var max := if display == Sanitized(filename) then MAX_NAME_LEN else MAX_NAME_LEN + 1 + |Dec(n)|;
    TameGrows(display, max, MAX_NAME_LEN + 1 + |Dec(count + 1)|);
  }

  lemma NeutralIsTame(display: string, max: nat)
    requires Tame(display, max)
    ensures Tame(Neutral(display), max + |SUFFIX|)
  {
    assert All(SUFFIX, IsSafe);
  }

  lemma ChosenIsSafe(before: seq<AttachmentFile>, filename: string, file: AttachmentFile, count: nat)
    requires Chosen(before, filename, file) && |before| < count
    ensures !Reserved(file.name) && Tame(file.name, MAX_NAME_LEN + 1 + |Dec(count + 1)| + |SUFFIX|)
    ensures forall k | 0 <= k < |file.name| :: !IsSeparator(file.name[k])
  {
    ChosenDisplayIsTame(before, filename, file, count);
    NeutralIsTame(file.display, MAX_NAME_LEN + 1 + |Dec(count + 1)|);
    NeutralIsNotReserved(file.display);
    SafeIsOneElement(file.name);
  }

  lemma SafeIsOneElement(name: string)
    requires All(name, IsSafe)
    ensures forall k | 0 <= k < |name| :: !IsSeparator(name[k])
  {
  }

  /** Every name can be joined onto the attachments directory and nothing else: it has only safe
      characters and no separator, does not begin with a dot, never reads as a delivered message,
      and is at most 120 characters, a dash, the counter's digits and the suffix. */
  lemma NamesAreSafe(filenames: seq<string>, files: seq<AttachmentFile>, i: nat)
    requires AllChosen(filenames, files) && i < |files|
    ensures var name := files[i].name;
            && !Reserved(name)
            && Tame(name, MAX_NAME_LEN + 1 + |Dec(|files| + 1)| + |SUFFIX|)
            && forall k | 0 <= k < |name| :: !IsSeparator(name[k])
  {
    ChosenIsSafe(files[..i], filenames[i], files[i], |files|);
  }
}
