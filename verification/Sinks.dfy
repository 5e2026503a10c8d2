/** The two sinks as sequences of file operations, any of which may fail and after any of which
    the process may die (internal/sink/sink.go, eml.go, markdown.go). */
module Sinks {
  import opened Text
  import opened Seqs
  import opened Mail

  /** An entry; a link names the path it leads to. */
  datatype Node = Dir | File(data: Bytes) | Symlink(to: string)

  predicate Within(path: string, dir: string) { path == dir || HasPrefix(path, dir + "/") }

  /** What a write that fails leaves: as many bytes as got through. */
  function Cut(data: Bytes, n: nat): (part: Bytes)
    ensures part <= data
  {
    if n <= |data| then data[..n] else data
  }

  /** Where one message goes under one rule: the directory chain, its document, its attachments
      directory and the files in it. */
  datatype Spot = Spot(dest: string, year: string, month: string, path: string, dir: string, names: seq<string>)
  {
    /** These are different places, the attachments in their directory and nothing else in it. */
    ghost predicate Apart() {
      && dest != year && year != month && dest != month
      && path !in {dest, year, month} && dir !in {dest, year, month}
      && !Within(dest, dir) && !Within(year, dir) && !Within(month, dir) && !Within(path, dir)
      && Distinct(names) && (forall n | n in names :: Within(n, dir) && n != dir)
    }
  }

  /** The file system, and what is in store for the operations on it: the i-th fails if
      `fault(i)`; a process that has died is one whose every later operation fails. A failed write
      leaves `torn(i)` bytes, and a failed recursive removal keeps the paths `kept(i)`. */
  class Disk {
    const fault: nat -> bool
    const torn: nat -> nat
    const kept: nat -> set<string>
    var ops: nat
    var nodes: map<string, Node>
    var temps: map<nat, Bytes>
    var nextTemp: nat

    constructor (fault: nat -> bool, torn: nat -> nat, kept: nat -> set<string>, nodes: map<string, Node>)
      ensures this.fault == fault && this.torn == torn && this.kept == kept
      ensures this.nodes == nodes && temps == map[] && nextTemp == 0 && ops == 0
    {
      this.fault, this.torn, this.kept, this.nodes := fault, torn, kept, nodes;
      temps, nextTemp, ops := map[], 0, 0;
    }

    predicate TempsFresh()
      reads this
    {
      forall t | t in temps :: t < nextTemp
    }

    /** Begins one operation. */
    method Try() returns (i: nat, ok: bool)
      modifies `ops
      ensures i == old(ops) && ops == i + 1 && ok == !fault(i)
    {
      i := ops;
      ops := ops + 1;
      ok := !fault(i);
    }

    /** None of these operations fails. */
    ghost predicate Fine(from: nat, to: nat) { forall i | from <= i < to :: !fault(i) }

    // ------------------------------------------------------------------- directories

    /** plan: whether a path is taken. A symlink there is an error. */
    method Plan(path: string) returns (exists_: bool, err: bool)
      modifies `ops
      ensures ops == old(ops) + 1
      ensures err <==> fault(old(ops)) || (path in nodes && nodes[path].Symlink?)
      ensures !err ==> exists_ == (path in nodes)
      ensures err ==> !exists_
    {
      var i, ok := Try();
      if !ok || (path in nodes && nodes[path].Symlink?) {
        return false, true;
      }
      return path in nodes, false;
    }

    /** mkdirNoFollow: an existing entry is accepted only if it is a directory in its own right. */
    method MkdirNoFollow(dir: string) returns (err: bool)
      modifies `ops, `nodes
      ensures ops >= old(ops)
      ensures nodes == if err then old(nodes) else old(nodes)[dir := Dir]
      ensures !err <==> (dir in old(nodes) ==> old(nodes)[dir] == Dir) && Fine(old(ops), old(ops) + MkdirOps(old(nodes), dir))
      ensures !err ==> ops == old(ops) + MkdirOps(old(nodes), dir)
    {
      var i, ok := Try();
      if !ok {
        return true;
      }
      if dir !in nodes {
        nodes := nodes[dir := Dir];
        return false;
      }
      i, ok := Try();
      err := !ok || nodes[dir] != Dir;
      if !err {
        assert nodes[dir := Dir] == nodes;
      }
    }

    /** ensureDir: the operator's dest may be what it likes; the year and month below it must be
        plain directories. */
    method EnsureDir(spot: Spot) returns (err: bool)
      requires spot.Apart()
      modifies `ops, `nodes
      ensures ops >= old(ops)
      ensures !err ==> spot.year in nodes && nodes[spot.year] == Dir && spot.month in nodes && nodes[spot.month] == Dir
      ensures SameBut(old(nodes), nodes, {spot.dest, spot.year, spot.month}, None)
      ensures SameBut(old(nodes), nodes, nodes.Keys - old(nodes).Keys, None)
      ensures !err <==> Clear(old(nodes), spot) && Fine(old(ops), old(ops) + EnsureOps(old(nodes), spot))
      ensures !err ==> ops == old(ops) + EnsureOps(old(nodes), spot)
    {
      var i, ok := Try();
      if !ok || (spot.dest in nodes && nodes[spot.dest].File?) {
        return true;
      }
      if spot.dest !in nodes {
        nodes := nodes[spot.dest := Dir];
      }
      err := MkdirNoFollow(spot.year);
      if !err {
        err := MkdirNoFollow(spot.month);
      }
    }

    /** verifyDir: the read-only half of ensureDir. A component that is not there yet is fine, and so
        is everything below it. */
    method VerifyDir(spot: Spot) returns (err: bool)
      modifies `ops
      ensures Rooted(nodes, spot) && (forall i :: !fault(i)) ==> err == !Clear(nodes, spot)
      ensures Rooted(nodes, spot) && !Clear(nodes, spot) ==> err
    {
      var i, ok := Try();
      if !ok || (spot.dest in nodes && nodes[spot.dest].File?) {
        return true;
      }
      if spot.year !in nodes {
        return false;
      }
      if nodes[spot.year] != Dir {
        return true;
      }
      i, ok := Try();
      err := !ok || (spot.month in nodes && nodes[spot.month] != Dir);
    }

    /** Plan: what Store would do, without doing it. */
    method PlanStore(spot: Spot) returns (exists_: bool, err: bool)
      modifies `ops
      ensures Rooted(nodes, spot) && (forall i :: !fault(i)) ==> (exists_, err) == Foreseen(nodes, spot)
    {
      err := VerifyDir(spot);
      if err {
        return false, true;
      }
      exists_, err := Plan(spot.path);
    }

    // -------------------------------------------------------------------------- files

    /** writeTemp: a complete temporary file, or none that this call will use. */
    method WriteTemp(data: Bytes) returns (temp: Option<nat>)
      requires TempsFresh()
      modifies `ops, `temps, `nextTemp
      ensures TempsFresh()
      ensures temp.Some? ==> temp.value !in old(temps) && temps == old(temps)[temp.value := data]
      ensures temp.Some? <==> Fine(old(ops), old(ops) + 4)
      ensures ops > old(ops) && (temp.Some? ==> ops == old(ops) + 4)
    {
      var i, ok := Try();
      if !ok {
        return None;
      }
      var name := nextTemp;
      nextTemp := nextTemp + 1;
      temps := temps[name := []];
      i, ok := Try();
      if !ok {
        temps := temps[name := Cut(data, torn(i))];
        RemoveTemp(name);
        return None;
      }
      temps := temps[name := data];
      i, ok := Try();
      if ok {
        i, ok := Try();
      }
      if !ok {
        RemoveTemp(name);
        return None;
      }
      temp := Some(name);
    }

    method RemoveTemp(name: nat)
      requires TempsFresh()
      modifies `ops, `temps
      ensures ops == old(ops) + 1 && (temps == old(temps) || temps == old(temps) - {name})
      ensures (forall i :: !fault(i)) ==> temps == old(temps) - {name}
    {
      var i, ok := Try();
      if ok {
        temps := temps - {name};
      }
    }

    /** An exclusive create in place opens its file, then its write or its close fails, and the
        removal of what was written with it. */
    ghost predicate Spoils(open_: nat) { !fault(open_) && fault(open_ + 2) && (fault(open_ + 1) || fault(open_ + 3)) }

    /** What it then leaves: some of the bytes, or all of them if only the close failed. */
    function Leavings(open_: nat, data: Bytes): Bytes { if fault(open_ + 1) then Cut(data, torn(open_ + 1)) else data }

    /** A claim that begins with this operation is botched: its temporary file is complete, the link
        fails with something other than a taken name, and the create in its place spoils the name. */
    ghost predicate Botched(c: nat) { Fine(c, c + 4) && fault(c + 4) && Spoils(c + 5) }

    /** A process that dies, in which nothing but the link of a claim has failed before, botches that
        claim exactly if the link did fail and it dies at the write or the close that stand in for
        it. So while no link fails for another reason, a death leaves no part of a file. */
    lemma DeathBotchesExactly(c: nat, dies: nat)
      requires forall i: nat :: fault(i) <==> i >= dies || (i == c + 4 && fault(c + 4))
      ensures Botched(c) <==> fault(c + 4) && (dies == c + 6 || dies == c + 7)
    {
      assert fault(dies) && fault(dies + 1);
    }

    /** existingPathTaken: a link at a taken name is refused, if the look at it succeeds. */
    method ExistingPathTaken(path: string) returns (err: bool)
      requires path in nodes
      modifies `ops
      ensures ops == old(ops) + 1 && err == (!fault(old(ops)) && nodes[path].Symlink?)
    {
      var i, ok := Try();
      err := ok && nodes[path].Symlink?;
    }

    /** createInPlaceExclusive: the exclusive create that stands in for a link that could not be made. */
    method CreateInPlaceExclusive(path: string, data: Bytes) returns (created: bool, err: bool)
      modifies `ops, `nodes
      ensures created ==> !err
      ensures path !in old(nodes) ==> (created <==> Fine(old(ops), old(ops) + 3)) && err == !created
      ensures path in old(nodes) ==> !created && (err <==> fault(old(ops)) || (old(nodes)[path].Symlink? && !fault(old(ops) + 1)))
      ensures nodes == if path in old(nodes) then old(nodes)
                       else if created then old(nodes)[path := File(data)]
                       else if Spoils(old(ops)) then old(nodes)[path := File(Leavings(old(ops), data))]
                       else old(nodes)
    {
      var i, ok := Try();
      if !ok {
        return false, true;
      }
      if path in nodes {
        err := ExistingPathTaken(path);
        return false, err;
      }
      ghost var before := nodes;
      i, ok := Try();
      nodes := nodes[path := File(if ok then data else Cut(data, torn(i)))];
      if ok {
        i, ok := Try();
      }
      if ok {
        return true, false;
      }
      i, ok := Try();
      if ok {
        nodes := nodes - {path};
        assert nodes == before;
      }
      return false, true;
    }

    /** createFileExclusive: link(2) from a complete file claims the name or fails. What was at a
        taken name stays; a free one gets the whole file, or nothing, or what a botched claim leaves. */
    method CreateFileExclusive(path: string, data: Bytes) returns (created: bool, err: bool)
      requires TempsFresh()
      modifies `ops, `nodes, `temps, `nextTemp
      ensures TempsFresh() && (created ==> !err)
      ensures path !in old(nodes) ==>
                && err == !created
                && (created <==> Fine(old(ops), old(ops) + 4) && (fault(old(ops) + 4) ==> Fine(old(ops) + 5, old(ops) + 8)))
                && (!created && path in nodes <==> Botched(old(ops)))
      ensures path in old(nodes) ==>
                && !created
                && (!err <==> Fine(old(ops), old(ops) + 4) && !(fault(old(ops) + 4) && fault(old(ops) + 5))
                              && (old(nodes)[path].Symlink? ==> fault(old(ops) + if fault(old(ops) + 4) then 6 else 5)))
      ensures nodes == if created then old(nodes)[path := File(data)]
                       else if path !in old(nodes) && Botched(old(ops)) then old(nodes)[path := File(Leavings(old(ops) + 5, data))]
                       else old(nodes)
      ensures (forall i :: !fault(i)) ==> temps == old(temps)
    {
      ghost var before := temps;
      var temp := WriteTemp(data);
      if temp.None? {
        return false, true;
      }
      var i, ok := Try();
      if !ok {
        created, err := CreateInPlaceExclusive(path, data);
        RemoveTemp(temp.value);
        return;
      }
      if path !in nodes {
        nodes := nodes[path := File(temps[temp.value])];
        RemoveTemp(temp.value);
        assert before[temp.value := data] - {temp.value} == before;
        return true, false;
      }
      err := ExistingPathTaken(path);
      RemoveTemp(temp.value);
      assert before[temp.value := data] - {temp.value} == before;
      created := false;
    }

    /** writeFileAtomic: rename(2) replaces whatever has the name but a directory, all at once or not
        at all. */
    method WriteFileAtomic(path: string, data: Bytes) returns (err: bool)
      requires TempsFresh()
      modifies `ops, `nodes, `temps, `nextTemp
      ensures ops >= old(ops)
      ensures TempsFresh()
      ensures nodes == if err then old(nodes) else old(nodes)[path := File(data)]
      ensures !err <==> Fine(old(ops), old(ops) + 5) && !(path in old(nodes) && old(nodes)[path] == Dir)
      ensures !err ==> ops == old(ops) + 5
    {
      var temp := WriteTemp(data);
      if temp.None? {
        return true;
      }
      var i, ok := Try();
      if !ok || (path in nodes && nodes[path] == Dir) {
        RemoveTemp(temp.value);
        return true;
      }
      nodes := nodes[path := File(temps[temp.value])];
      temps := temps - {temp.value};
      err := false;
    }

    /** os.WriteFile: in place and through links, so a write that fails leaves part of the new content
        and nothing of the old. */
    method WriteInPlace(path: string, data: Bytes) returns (err: bool)
      modifies `ops, `nodes
      ensures SameLinks(old(nodes), nodes) && Final(nodes, path) == Final(old(nodes), path)
      ensures !err ==> Final(old(nodes), path).Some? && nodes == old(nodes)[Final(old(nodes), path).value := File(data)]
      ensures err ==> nodes == old(nodes)
                      || (Final(old(nodes), path).Some?
                          && exists part | part <= data :: nodes == old(nodes)[Final(old(nodes), path).value := File(part)])
      ensures (forall i :: !fault(i)) ==>
                (!err <==> Final(old(nodes), path).Some?
                           && !(Final(old(nodes), path).value in old(nodes) && old(nodes)[Final(old(nodes), path).value].Dir?))
    {
      ghost var was := nodes;
      var end := Final(nodes, path);
      var i, ok := Try();
      if !ok || end.None? || (end.value in nodes && nodes[end.value].Dir?) {
        return true;
      }
      nodes := nodes[end.value := File([])];
      i, ok := Try();
      var part := if ok then data else Cut(data, torn(i));
      assert nodes[end.value := File(part)] == was[end.value := File(part)];
      nodes := nodes[end.value := File(part)];
      FinalStays(was, nodes, path, MAX_LINKS);
      err := !ok;
    }

    /** quarantine.write: the message first and its sidecar second, both checked. Success means each
        is read back at its path, the message unless both paths lead to one file; and a sidecar this
        call touched, at a file of its own, stands beside a whole message. */
    method WriteQuarantine(dir: string, eml: string, sidecar: string, raw: Bytes, record: Bytes) returns (err: bool)
      modifies `ops, `nodes
      ensures SameBut(old(nodes), nodes, {dir} + Ends(old(nodes), eml) + Ends(old(nodes), sidecar), None)
      ensures !err ==> Found(nodes, sidecar) == Some(File(record))
      ensures !err ==> (Found(nodes, eml) == Some(File(raw)) <==> raw == record || Ends(old(nodes), eml) != Ends(old(nodes), sidecar))
      ensures Ends(old(nodes), eml) != Ends(old(nodes), sidecar) ==>
                Found(nodes, sidecar) in {Found(old(nodes), sidecar), Some(Dir)} || Found(nodes, eml) == Some(File(raw))
    {
      var i, ok := Try();
      if !ok || (dir in nodes && nodes[dir].File?) {
        return true;
      }
      if dir !in nodes {
        nodes := nodes[dir := Dir];
      }
      FinalStays(old(nodes), nodes, eml, MAX_LINKS);
      FinalStays(old(nodes), nodes, sidecar, MAX_LINKS);
      ghost var made := nodes;
      err := WriteInPlace(eml, raw);
      FinalStays(made, nodes, sidecar, MAX_LINKS);
      if err {
        return;
      }
      ghost var parked := nodes;
      err := WriteInPlace(sidecar, record);
      FinalStays(parked, nodes, eml, MAX_LINKS);
    }

    /** RemoveAll: everything within a directory, or some of it. */
    method RemoveAll(dir: string)
      modifies `ops, `nodes
      ensures ops == old(ops) + 1
      ensures SameBut(old(nodes), nodes, {}, Some(dir))
    {
      var i, ok := Try();
      var keep := if ok then {} else kept(i);
      nodes := map p | p in nodes && (!Within(p, dir) || p in keep) :: nodes[p];
    }

    // ------------------------------------------------------------------------- the sinks

    /** A store that finds its name free and gets its directories made. */
    ghost predicate Begins(before: map<string, Node>, spot: Spot, from: nat) {
      spot.path !in before && Clear(before, spot) && Fine(from, Started(before, spot, from))
    }

    /** A store ruins a free name: it gets as far as claiming it, and botches the claim. */
    ghost predicate RuinsEml(before: map<string, Node>, spot: Spot, from: nat) {
      Begins(before, spot, from) && Botched(Started(before, spot, from))
    }

    ghost predicate RuinsMarkdown(before: map<string, Node>, spot: Spot, from: nat) {
      Begins(before, spot, from) && ClaimBotched(before, spot, Started(before, spot, from))
    }

    /** The document's claim is reached, and botched. */
    ghost predicate ClaimBotched(before: map<string, Node>, spot: Spot, from: nat) {
      var claim := from + AttachOps(before, spot);
      AttachmentsFree(before, spot) && Fine(from, claim) && Botched(claim)
    }

    /** The name holds what a botched claim leaves. */
    ghost predicate Remains(path: string, data: Bytes, claim: nat)
      reads this`nodes
    {
      path in nodes && nodes[path] == File(Leavings(claim + 5, data))
    }

    /** What both sinks begin with: the directories, and a look at the name. */
    method Begin(spot: Spot) returns (exists_: bool, err: bool)
      requires spot.Apart()
      modifies `ops, `nodes
      ensures SameBut(old(nodes), nodes, {spot.dest, spot.year, spot.month}, None)
      ensures Same(old(nodes), nodes, spot.path) && (err ==> !exists_)
      ensures exists_ ==> spot.path in old(nodes) && !old(nodes)[spot.path].Symlink?
      ensures !exists_ && !err <==> Begins(old(nodes), spot, old(ops))
      ensures !exists_ && !err ==> ops == Started(old(nodes), spot, old(ops))
      ensures (forall i :: !fault(i)) ==> (exists_, err) == Foreseen(old(nodes), spot)
    {
      err := EnsureDir(spot);
      if err {
        return false, true;
      }
      exists_, err := Plan(spot.path);
    }

    /** EMLSink.Store. */
    method StoreEml(spot: Spot, raw: Bytes) returns (skipped: bool, err: bool)
      requires spot.Apart() && TempsFresh()
      modifies `ops, `nodes, `temps, `nextTemp
      ensures TempsFresh()
      ensures SameBut(old(nodes), nodes, {spot.dest, spot.year, spot.month, spot.path}, None)
      ensures !err && !skipped ==> spot.path !in old(nodes) && spot.path in nodes && nodes[spot.path] == File(raw)
      ensures skipped ==> !err && spot.path in old(nodes) && !old(nodes)[spot.path].Symlink? && Same(old(nodes), nodes, spot.path)
      ensures err ==> if RuinsEml(old(nodes), spot, old(ops)) then Remains(spot.path, raw, Started(old(nodes), spot, old(ops)))
                      else Same(old(nodes), nodes, spot.path)
      ensures RuinsEml(old(nodes), spot, old(ops)) ==> err
      ensures (forall i :: !fault(i)) ==> (skipped, err) == Foreseen(old(nodes), spot)
    {
      var exists_;
      exists_, err := Begin(spot);
      if err || exists_ {
        return exists_, err;
      }
      var created;
      created, err := CreateFileExclusive(spot.path, raw);
      skipped := !created && !err;
    }

    /** The attachments from the i-th on, each replaced whole. */
    method WriteFiles(spot: Spot, contents: seq<Bytes>) returns (err: bool)
      requires spot.Apart() && TempsFresh() && |contents| == |spot.names|
      modifies `ops, `nodes, `temps, `nextTemp
      ensures ops >= old(ops)
      ensures TempsFresh()
      ensures SameBut(old(nodes), nodes, {}, Some(spot.dir))
      ensures !err ==> AttachmentsThere(nodes, spot, contents) && ops == old(ops) + 5 * |spot.names|
      ensures !err <==> NamesFree(old(nodes), spot) && Fine(old(ops), old(ops) + 5 * |spot.names|)
    {
      var i := 0;
      while i < |spot.names|
        invariant 0 <= i <= |spot.names| && TempsFresh() && ops == old(ops) + 5 * i && Fine(old(ops), ops)
        invariant forall k | 0 <= k < i && spot.names[k] in old(nodes) :: old(nodes)[spot.names[k]] != Dir
        invariant forall k | i <= k < |spot.names| :: Same(old(nodes), nodes, spot.names[k])
        invariant SameBut(old(nodes), nodes, {}, Some(spot.dir))
        invariant forall k | 0 <= k < i :: spot.names[k] in nodes && nodes[spot.names[k]] == File(contents[k])
      {
        err := WriteFileAtomic(spot.names[i], contents[i]);
        if err {
          return;
        }
        i := i + 1;
      }
      err := false;
    }

    /** writeAttachments: `ours` is whether cleaning up is this call's to do. */
    method WriteAttachments(spot: Spot, contents: seq<Bytes>) returns (ours: bool, err: bool)
      requires spot.Apart() && TempsFresh() && |contents| == |spot.names|
      modifies `ops, `nodes, `temps, `nextTemp
      ensures ops >= old(ops)
      ensures TempsFresh()
      ensures SameBut(old(nodes), nodes, {}, Some(spot.dir))
      ensures !err ==> AttachmentsThere(nodes, spot, contents) && ops == old(ops) + AttachOps(old(nodes), spot)
      ensures !err <==> AttachmentsFree(old(nodes), spot) && Fine(old(ops), old(ops) + AttachOps(old(nodes), spot))
    {
      if |contents| == 0 {
        return false, false;
      }
      var preexisting;
      preexisting, err := Plan(spot.dir);
      if err {
        return false, true;
      }
      err := MkdirNoFollow(spot.dir);
      if err {
        return false, true;
      }
      ours := !preexisting;
      err := WriteFiles(spot, contents);
      if err {
        if ours {
          RemoveAll(spot.dir);
        }
        return false, true;
      }
    }

    /** The last step of a store: the document at its free name, or, if that fails, the cleanup. */
    method PublishDocument(spot: Spot, doc: Bytes, contents: seq<Bytes>, ours: bool) returns (err: bool)
      requires spot.Apart() && TempsFresh() && |contents| == |spot.names|
      requires spot.path !in nodes && AttachmentsThere(nodes, spot, contents)
      modifies `ops, `nodes, `temps, `nextTemp
      ensures TempsFresh()
      ensures SameBut(old(nodes), nodes, {spot.path}, Some(spot.dir))
      ensures !err ==> spot.path in nodes && nodes[spot.path] == File(doc) && AttachmentsThere(nodes, spot, contents)
      ensures err ==> if Botched(old(ops)) then Remains(spot.path, doc, old(ops)) else spot.path !in nodes
      ensures Botched(old(ops)) ==> err
      ensures (forall i :: !fault(i)) ==> !err
    {
      var created;
      created, err := CreateFileExclusive(spot.path, doc);
      if err && ours {
        RemoveAll(spot.dir);
      }
    }

    /** A store from where its directories are there and its name is free. */
    method WriteMarkdown(spot: Spot, doc: Bytes, contents: seq<Bytes>) returns (err: bool)
      requires spot.Apart() && TempsFresh() && |contents| == |spot.names| && spot.path !in nodes
      modifies `ops, `nodes, `temps, `nextTemp
      ensures TempsFresh()
      ensures SameBut(old(nodes), nodes, {spot.path}, Some(spot.dir))
      ensures !err ==> spot.path in nodes && nodes[spot.path] == File(doc) && AttachmentsThere(nodes, spot, contents)
      ensures err ==> if ClaimBotched(old(nodes), spot, old(ops)) then Remains(spot.path, doc, old(ops) + AttachOps(old(nodes), spot))
                      else spot.path !in nodes
      ensures ClaimBotched(old(nodes), spot, old(ops)) ==> err
      ensures (forall i :: !fault(i)) && AttachmentsFree(old(nodes), spot) ==> !err
    {
      var ours;
      ours, err := WriteAttachments(spot, contents);
      if err {
        return true;
      }
      err := PublishDocument(spot, doc, contents, ours);
    }

    /** MarkdownSink.Store: the attachments first, the document last. Whatever fails, and wherever
        the process dies, a document on disk has every attachment it lists; but for what is left of
        one at a name this store ruins. */
    method StoreMarkdown(spot: Spot, doc: Bytes, contents: seq<Bytes>) returns (skipped: bool, err: bool)
      requires spot.Apart() && TempsFresh() && |contents| == |spot.names|
      requires Documented(nodes, spot, contents)
      modifies `ops, `nodes, `temps, `nextTemp
      ensures TempsFresh()
      ensures SameBut(old(nodes), nodes, {spot.dest, spot.year, spot.month, spot.path}, Some(spot.dir))
      ensures !err && !skipped ==> spot.path !in old(nodes) && spot.path in nodes && nodes[spot.path] == File(doc)
      ensures !err && !skipped ==> AttachmentsThere(nodes, spot, contents)
      ensures skipped ==> !err && spot.path in old(nodes) && !old(nodes)[spot.path].Symlink? && Same(old(nodes), nodes, spot.path)
      ensures err ==> if RuinsMarkdown(old(nodes), spot, old(ops))
                      then Remains(spot.path, doc, Started(old(nodes), spot, old(ops)) + AttachOps(old(nodes), spot))
                      else Same(old(nodes), nodes, spot.path)
      ensures RuinsMarkdown(old(nodes), spot, old(ops)) ==> err
      ensures Documented(nodes, spot, contents) || RuinsMarkdown(old(nodes), spot, old(ops))
      ensures (forall i :: !fault(i)) && AttachmentsFree(old(nodes), spot) ==> (skipped, err) == Foreseen(old(nodes), spot)
    {
      var exists_;
      exists_, err := Begin(spot);
      AttachmentsStay(old(nodes), nodes, spot, contents);
      if err || exists_ {
        return exists_, err;
      }
      err := WriteMarkdown(spot, doc, contents);
      skipped := false;
    }
  }

  /** How many operations it takes to make a directory, a message's directories, and its attachments,
      if none of them fails. */
  function MkdirOps(nodes: map<string, Node>, dir: string): nat { if dir in nodes then 2 else 1 }

  function EnsureOps(nodes: map<string, Node>, spot: Spot): nat { 1 + MkdirOps(nodes, spot.year) + MkdirOps(nodes, spot.month) }

  function AttachOps(nodes: map<string, Node>, spot: Spot): nat {
    if spot.names == [] then 0 else 1 + MkdirOps(nodes, spot.dir) + 5 * |spot.names|
  }

  /** The operation that follows the making of the directories and the look at the name. */
  function Started(nodes: map<string, Node>, spot: Spot, from: nat): nat { from + EnsureOps(nodes, spot) + 1 }

  /** The most links the kernel follows for one path. */
  const MAX_LINKS: nat := 40

  /** The path a path leads to: through links, to an entry that is none or to nothing, if it gets there. */
  function Final(nodes: map<string, Node>, path: string, left: nat := MAX_LINKS): (end: Option<string>)
    ensures end.Some? && end.value in nodes ==> !nodes[end.value].Symlink?
    decreases left
  {
    if path !in nodes || !nodes[path].Symlink? then Some(path)
    else if left == 0 then None
    else Final(nodes, nodes[path].to, left - 1)
  }

  function Ends(nodes: map<string, Node>, path: string): set<string> {
    var end := Final(nodes, path);
    if end.None? then {} else {end.value}
  }

  /** What a reader finds at a path. */
  function Found(nodes: map<string, Node>, path: string): Option<Node> {
    var end := Final(nodes, path);
    if end.Some? && end.value in nodes then Some(nodes[end.value]) else None
  }

  predicate IsLink(nodes: map<string, Node>, p: string) { p in nodes && nodes[p].Symlink? }

  /** No link has come, gone or changed. */
  ghost predicate SameLinks(a: map<string, Node>, b: map<string, Node>) {
    forall p :: (IsLink(a, p) <==> IsLink(b, p)) && (IsLink(a, p) ==> a[p] == b[p])
  }

  /** Then every path leads where it did. */
  lemma {:induction false} FinalStays(before: map<string, Node>, nodes: map<string, Node>, path: string, left: nat)
    requires SameLinks(before, nodes)
    ensures Final(before, path, left) == Final(nodes, path, left)
    decreases left
  {
    assert IsLink(before, path) <==> IsLink(nodes, path);
    if IsLink(before, path) && left > 0 {
      FinalStays(before, nodes, before[path].to, left - 1);
    }
  }

  /** The directory chain can be used as it is, or made. */
  predicate Clear(nodes: map<string, Node>, spot: Spot) {
    && !(spot.dest in nodes && nodes[spot.dest].File?)
    && (spot.year in nodes ==> nodes[spot.year] == Dir) && (spot.month in nodes ==> nodes[spot.month] == Dir)
  }

  /** A directory's entries are there only if it is. */
  predicate Rooted(nodes: map<string, Node>, spot: Spot) {
    (spot.month in nodes ==> spot.year in nodes) && (spot.path in nodes ==> spot.month in nodes)
  }

  /** What a store comes to if nothing fails and nobody interferes: whether the message is already
      there, or its place is refused. */
  function Foreseen(nodes: map<string, Node>, spot: Spot): (bool, bool) {
    if !Clear(nodes, spot) || (spot.path in nodes && nodes[spot.path].Symlink?) then (false, true) else (spot.path in nodes, false)
  }

  /** Nothing has changed but at some paths and within some directory. */
  ghost predicate SameBut(a: map<string, Node>, b: map<string, Node>, except: set<string>, dir: Option<string>) {
    forall p | p !in except && (dir.Some? ==> !Within(p, dir.value)) :: (p in a <==> p in b) && (p in a ==> a[p] == b[p])
  }

  /** A path holds the same thing, or nothing, in both. */
  predicate Same(a: map<string, Node>, b: map<string, Node>, p: string) {
    (p in a <==> p in b) && (p in a ==> a[p] == b[p])
  }

  /** No attachment's name is taken by a directory. */
  ghost predicate NamesFree(nodes: map<string, Node>, spot: Spot) { forall n | n in spot.names && n in nodes :: nodes[n] != Dir }

  /** The attachments directory can be used as it is, or made, if there is anything to put there; a dry
      run does not look at it. */
  ghost predicate AttachmentsFree(nodes: map<string, Node>, spot: Spot) {
    spot.names != [] ==> (spot.dir in nodes ==> nodes[spot.dir] == Dir) && NamesFree(nodes, spot)
  }

  /** Making a message's directories leaves its attachments as they are. */
  lemma AttachmentsStay(before: map<string, Node>, nodes: map<string, Node>, spot: Spot, contents: seq<Bytes>)
    requires |contents| == |spot.names|
    requires spot.Apart() && SameBut(before, nodes, {spot.dest, spot.year, spot.month}, None)
    ensures AttachmentsFree(nodes, spot) <==> AttachmentsFree(before, spot)
    ensures AttachOps(nodes, spot) == AttachOps(before, spot)
    ensures Documented(before, spot, contents) ==> Documented(nodes, spot, contents)
  {
    forall n | n in spot.names ensures Same(before, nodes, n) {
      assert Within(n, spot.dir);
    }
    assert forall k | 0 <= k < |spot.names| :: spot.names[k] in spot.names;
  }

  ghost predicate AttachmentsThere(nodes: map<string, Node>, spot: Spot, contents: seq<Bytes>)
    requires |contents| == |spot.names|
  {
    forall k | 0 <= k < |spot.names| :: spot.names[k] in nodes && nodes[spot.names[k]] == File(contents[k])
  }

  /** If the document is there, so is every attachment it lists, with its content. */
  ghost predicate Documented(nodes: map<string, Node>, spot: Spot, contents: seq<Bytes>)
    requires |contents| == |spot.names|
  {
    spot.path in nodes && nodes[spot.path].File? ==> AttachmentsThere(nodes, spot, contents)
  }

  // ------------------------------------------------------------------------ theorems

  /** A link is refused for some other reason, and the process dies at the write that stands in for it:
      an empty file is left, and the next run takes it for the message. */
  method DiesInTheCreate(path: string, data: Bytes) returns (disk: Disk, next: Disk, skipped: bool)
    ensures fresh(disk) && fresh(next) && (forall i: nat :: disk.fault(i) <==> i == 4 || i >= 6) && forall i :: !next.fault(i)
    ensures disk.nodes == next.nodes == map[path := File([])] && skipped
  {
    disk := new Disk((i: nat) => i == 4 || i >= 6, (_: nat) => 0, (_: nat) => {}, map[]);
    var created, err := disk.CreateFileExclusive(path, data);
    assert disk.Botched(0);
    next := new Disk((_: nat) => false, (_: nat) => 0, (_: nat) => {}, disk.nodes);
    created, err := next.CreateFileExclusive(path, data);
    skipped := !created && !err;
  }

  function Under(dir: string, names: seq<string>): (paths: seq<string>)
    ensures |paths| == |names| && forall i | 0 <= i < |names| :: paths[i] == dir + "/" + names[i]
  {
    seq(|names|, i requires 0 <= i < |names| => dir + "/" + names[i])
  }

  /** `<dest>/<year>/<month>/<base>.md`, its attachments beside it under the same base. */
  function MarkdownSpot(dest: string, year: string, month: string, base: string, names: seq<string>): Spot {
    var y := dest + "/" + year;
    var m := y + "/" + month;
    var dir := m + "/" + (base + ".attachments");
    Spot(dest, y, m, m + "/" + (base + ".md"), dir, Under(dir, names))
  }

  /** The layout keeps the document, its attachments and its directories apart, whatever the names
      are, as long as the attachments' differ. */
  lemma LayoutIsApart(dest: string, year: string, month: string, base: string, names: seq<string>)
    requires Distinct(names)
    ensures MarkdownSpot(dest, year, month, base, names).Apart()
  {
    var spot := MarkdownSpot(dest, year, month, base, names);
    forall i, j | 0 <= i < j < |names| ensures spot.names[i] != spot.names[j] {
      if spot.names[i] == spot.names[j] {
        CancelPrefix(spot.dir + "/", names[i], names[j]);
      }
    }
    forall n | n in spot.names ensures Within(n, spot.dir) && n != spot.dir {
      var i :| 0 <= i < |names| && n == spot.dir + "/" + names[i];
      assert n[..|spot.dir| + 1] == spot.dir + "/";
    }
  }

  /** Two messages' places do not meet. */
  ghost predicate Separate(spot: Spot, other: Spot) {
    && other.path !in {spot.dest, spot.year, spot.month, spot.path} && !Within(other.path, spot.dir)
    && forall n | n in other.names :: n !in {spot.dest, spot.year, spot.month, spot.path} && !Within(n, spot.dir)
  }

  /** The first separator of a path splits it in one way only. */
  lemma FirstPart(x: string, d: string, y: string, e: string)
    requires '/' !in x && '/' !in y && x + "/" + d == y + "/" + e
    ensures x == y && d == e
  {
    var s := x + "/" + d;
    assert s[|x|] == '/' && s[|y|] == '/';
    assert forall k | 0 <= k < |x| :: s[k] == x[k] && x[k] in x;
    assert forall k | 0 <= k < |y| :: (y + "/" + e)[k] == y[k] && y[k] in y;
    assert |x| == |y|;
    assert x == s[..|x|] == y && d == s[|x| + 1..] == e;
  }

  /** A path below a destination is the destination and what is below it. */
  function At(dest: string, rel: string): string { dest + "/" + rel }

  lemma AtCancels(dest: string, a: string, b: string)
    ensures At(dest, a) == At(dest, b) ==> a == b
    ensures Within(At(dest, a), At(dest, b)) <==> Within(a, b)
    ensures At(dest, a) != dest
  {
    var front := dest + "/";
    if At(dest, a) == At(dest, b) {
      CancelPrefix(front, a, b);
    }
    assert At(dest, b) + "/" == front + (b + "/");
    if |b| + 1 <= |a| {
      assert (front + a)[..|front| + |b| + 1] == front + a[..|b| + 1];
      if front + a[..|b| + 1] == front + (b + "/") {
        CancelPrefix(front, a[..|b| + 1], b + "/");
      }
    }
  }

  /** `<year>/<month>/<name>`. */
  function Rel(year: string, month: string, name: string): string { year + "/" + (month + "/" + name) }

  lemma RelIs(year: string, month: string, name: string, y: string, m: string, n: string)
    requires '/' !in year && '/' !in month && '/' !in y && '/' !in m
    ensures Rel(year, month, name) == Rel(y, m, n) ==> year == y && month == m && name == n
  {
    if Rel(year, month, name) == Rel(y, m, n) {
      FirstPart(year, month + "/" + name, y, m + "/" + n);
      FirstPart(month, name, m, n);
    }
  }

  lemma RelIsDeep(year: string, month: string, name: string, y: string, m: string)
    requires '/' !in year && '/' !in month && '/' !in y && '/' !in m
    ensures Rel(year, month, name) != y && Rel(year, month, name) != y + "/" + m
  {
    assert Rel(year, month, name)[|year|] == '/' && (month + "/" + name)[|month|] == '/';
    if Rel(year, month, name) == y + "/" + m {
      FirstPart(year, month + "/" + name, y, m);
    }
  }

  lemma RelWithin(year: string, month: string, name: string, y: string, m: string, n: string)
    requires '/' !in year && '/' !in month && '/' !in y && '/' !in m && Within(Rel(year, month, name), Rel(y, m, n))
    ensures year == y && month == m && Within(name, n)
  {
    var path, dir := Rel(year, month, name), Rel(y, m, n);
    if path == dir {
      RelIs(year, month, name, y, m, n);
    } else {
      var tail := path[|dir| + 1..];
      assert path == dir + "/" + tail;
      assert dir + "/" + tail == Rel(y, m, n + "/" + tail);
      RelIs(year, month, name, y, m, n + "/" + tail);
      assert (n + "/" + tail)[..|n| + 1] == n + "/";
    }
  }

  /** A message's document, and each of its attachments, by its path below the destination. */
  lemma SpotIs(dest: string, year: string, month: string, base: string, names: seq<string>)
    ensures var spot := MarkdownSpot(dest, year, month, base, names);
            && spot.year == At(dest, year) && spot.month == At(dest, year + "/" + month)
            && spot.path == At(dest, Rel(year, month, base + ".md"))
            && spot.dir == At(dest, Rel(year, month, base + ".attachments"))
            && forall i | 0 <= i < |names| :: spot.names[i] == At(dest, Rel(year, month, base + ".attachments/" + names[i]))
  {
    var spot := MarkdownSpot(dest, year, month, base, names);
    Assoc(dest + "/", year, "/" + month);
    assert spot.month == dest + "/" + (year + "/" + month);
    assert spot.path == dest + "/" + Rel(year, month, base + ".md");
    assert spot.dir == dest + "/" + Rel(year, month, base + ".attachments");
    forall i | 0 <= i < |names| ensures spot.names[i] == dest + "/" + Rel(year, month, base + ".attachments/" + names[i]) {
      assert base + ".attachments/" + names[i] == base + ".attachments" + ("/" + names[i]);
    }
  }

  lemma PrefixHasSlash(s: string, dir: string)
    ensures HasPrefix(s, dir + "/") ==> '/' in s
  {
    if HasPrefix(s, dir + "/") {
      assert s[|dir|] == (dir + "/")[|dir|];
    }
  }

  lemma BasesPart(base: string, other: string, tail: string)
    requires '/' !in base && '/' !in other && base != other
    ensures other + ".md" != base + ".md" && !Within(other + ".md", base + ".attachments")
    ensures other + ".attachments/" + tail != base + ".md" && !Within(other + ".attachments/" + tail, base + ".attachments")
  {
    if other + ".md" == base + ".md" {
      CancelSuffix(other, base, ".md");
    }
    var dir := base + ".attachments";
    assert '/' !in other + ".md" && '/' !in base + ".md" && '/' !in dir && '/' !in other + ".attachments";
    PrefixHasSlash(other + ".md", dir);
    assert |other + ".md"| == |dir| ==> (other + ".md")[|dir| - 1] == 'd' && dir[|dir| - 1] == 's';
    assert (other + ".attachments/" + tail)[|other| + 12] == '/';
    if Within(other + ".attachments/" + tail, dir) {
      if HasPrefix(other + ".attachments/" + tail, dir + "/") {
        var rest := (other + ".attachments/" + tail)[|dir| + 1..];
        assert other + ".attachments/" + tail == dir + "/" + rest;
        assert other + ".attachments/" + tail == other + ".attachments" + "/" + tail;
        FirstPart(other + ".attachments", tail, dir, rest);
        CancelSuffix(other, base, ".attachments");
      }
    }
  }

  /** Two messages of one destination, their basenames different: whatever their months and their
      attachments, their places do not meet. */
  lemma SpotsAreSeparate(dest: string, year: string, month: string, base: string, names: seq<string>,
                         y: string, m: string, other: string, others: seq<string>)
    requires '/' !in year && '/' !in month && '/' !in base && '/' !in y && '/' !in m && '/' !in other && base != other
    ensures Separate(MarkdownSpot(dest, year, month, base, names), MarkdownSpot(dest, y, m, other, others))
  {
    var spot, o := MarkdownSpot(dest, year, month, base, names), MarkdownSpot(dest, y, m, other, others);
    SpotIs(dest, year, month, base, names);
    SpotIs(dest, y, m, other, others);
    BasesPart(base, other, "");
    PlaceIsApart(dest, year, month, base, names, y, m, other + ".md");
    forall n | n in o.names ensures n !in {spot.dest, spot.year, spot.month, spot.path} && !Within(n, spot.dir) {
      var i :| 0 <= i < |o.names| && o.names[i] == n;
      BasesPart(base, other, others[i]);
      PlaceIsApart(dest, year, month, base, names, y, m, other + ".attachments/" + others[i]);
    }
  }

  lemma PlaceIsApart(dest: string, year: string, month: string, base: string, names: seq<string>, y: string, m: string, name: string)
    requires '/' !in year && '/' !in month && '/' !in y && '/' !in m
    requires name != base + ".md" && !Within(name, base + ".attachments")
    ensures var spot, path := MarkdownSpot(dest, year, month, base, names), At(dest, Rel(y, m, name));
            path !in {spot.dest, spot.year, spot.month, spot.path} && !Within(path, spot.dir)
  {
    SpotIs(dest, year, month, base, names);
    var rel := Rel(y, m, name);
    AtCancels(dest, rel, year);
    AtCancels(dest, rel, year + "/" + month);
    AtCancels(dest, rel, Rel(year, month, base + ".md"));
    AtCancels(dest, rel, Rel(year, month, base + ".attachments"));
    RelIsDeep(y, m, name, year, month);
    RelIs(y, m, name, year, month, base + ".md");
    if Within(rel, Rel(year, month, base + ".attachments")) {
      RelWithin(y, m, name, year, month, base + ".attachments");
    }
  }

  lemma SeparateStays(before: map<string, Node>, later: map<string, Node>, spot: Spot, other: Spot, contents: seq<Bytes>)
    requires |contents| == |other.names| && Separate(spot, other) && Documented(before, other, contents)
    requires SameBut(before, later, {spot.dest, spot.year, spot.month, spot.path}, Some(spot.dir))
    ensures Documented(later, other, contents)
  {
    if other.path in later && later[other.path].File? {
      forall k | 0 <= k < |other.names| ensures other.names[k] in later && later[other.names[k]] == File(contents[k]) {
        assert other.names[k] in other.names;
      }
    }
  }

  /** Storing one message, however it fails, leaves the document of every other with a different
      basename, of whatever month, with its attachments. */
  lemma OthersStayDocumented(before: map<string, Node>, later: map<string, Node>, dest: string,
                             year: string, month: string, base: string, names: seq<string>,
                             y: string, m: string, other: string, others: seq<string>, contents: seq<Bytes>)
    requires '/' !in year && '/' !in month && '/' !in base && '/' !in y && '/' !in m && '/' !in other && base != other
    requires |contents| == |others| && Documented(before, MarkdownSpot(dest, y, m, other, others), contents)
    requires var spot := MarkdownSpot(dest, year, month, base, names);
             SameBut(before, later, {spot.dest, spot.year, spot.month, spot.path}, Some(spot.dir))
    ensures Documented(later, MarkdownSpot(dest, y, m, other, others), contents)
  {
    SpotsAreSeparate(dest, year, month, base, names, y, m, other, others);
    SeparateStays(before, later, MarkdownSpot(dest, year, month, base, names), MarkdownSpot(dest, y, m, other, others), contents);
  }
}
