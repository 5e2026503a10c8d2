/** The thread a message belongs to, read from its headers (internal/model/parse.go). */
module Threads {
  import opened Text
  import opened Seqs
  import SinkNames

  // ------------------------------------------------------------- the bracket scanner

  predicate IsBracket(c: char) { c == '<' || c == '>' }

  /** Where the bracket still open at the end of a text was opened, or -1. */
  function Open(v: string): (r: int)
    ensures -1 <= r < |v|
  {
    if v == "" then -1
    else if v[|v| - 1] == '<' then |v| - 1
    else if v[|v| - 1] == '>' then -1
    else Open(v[..|v| - 1])
  }

  /** What one more character completes: the run it closes, unless that is empty. */
  function Emits(v: string, c: char): seq<string> {
    if c == '>' && Open(v) >= 0 && Open(v) < |v| - 1 then [v[Open(v)..] + [c]] else []
  }

  /** The bracketed runs of a text, in order: each closing bracket ends the run its nearest
      bracket opened. */
  function Tokens(v: string): seq<string> {
    if v == "" then [] else Tokens(v[..|v| - 1]) + Emits(v[..|v| - 1], v[|v| - 1])
  }

  function AllTokens(values: seq<string>): seq<string> {
    if values == [] then [] else Tokens(values[0]) + AllTokens(values[1..])
  }

  /** A bracketed id: `<` text `>`, the text non-empty and without brackets. */
  predicate WellFormed(id: string) {
    |id| > 2 && id[0] == '<' && id[|id| - 1] == '>' && forall i | 0 < i < |id| - 1 :: !IsBracket(id[i])
  }

  lemma {:induction false} OpenIsOpen(v: string)
    ensures Open(v) >= 0 ==> v[Open(v)] == '<' && forall k | Open(v) < k < |v| :: !IsBracket(v[k])
  {
    if v != "" && !IsBracket(v[|v| - 1]) {
      OpenIsOpen(v[..|v| - 1]);
    }
  }

  /** The stretch of v from i to j is a well-formed id. */
  predicate IdAt(v: string, i: nat, j: nat) { i < j <= |v| && WellFormed(v[i..j]) }

  lemma {:induction false} OpenFinds(v: string, i: nat)
    requires i < |v| && v[i] == '<' && forall k | i < k < |v| :: !IsBracket(v[k])
    ensures Open(v) == i
  {
    if i < |v| - 1 {
      assert v[|v| - 1] == v[i..][|v| - 1 - i];
      OpenFinds(v[..|v| - 1], i);
    }
  }

  ghost predicate HasId(v: string, id: string) { exists i: nat, j: nat :: IdAt(v, i, j) && v[i..j] == id }

  lemma EmittedIsId(v: string, c: char)
    requires Emits(v, c) != []
    ensures HasId(v + [c], Emits(v, c)[0])
  {
    var i, w := Open(v), v + [c];
    OpenIsOpen(v);
    var id := w[i..|w|];
    assert id == v[i..] + [c];
    assert forall k | 0 < k < |id| - 1 :: id[k] == v[i + k];
    assert IdAt(w, i, |w|);
  }

  lemma {:induction false} TokenIsId(v: string, id: string)
    requires id in Tokens(v)
    ensures HasId(v, id)
  {
    var front := v[..|v| - 1];
    if id in Tokens(front) {
      TokenIsId(front, id);
      var i: nat, j: nat :| IdAt(front, i, j) && front[i..j] == id;
      assert v[i..j] == front[i..j];
    } else {
      EmittedIsId(front, v[|v| - 1]);
      assert front + [v[|v| - 1]] == v;
    }
  }

  lemma {:induction false} IdIsToken(v: string, i: nat, j: nat)
    requires IdAt(v, i, j)
    ensures v[i..j] in Tokens(v)
  {
    var front := v[..|v| - 1];
    if j < |v| {
      assert front[i..j] == v[i..j];
      IdIsToken(front, i, j);
    } else {
      assert v[i..j][0] == front[i] && v[i..j][|v[i..j]| - 1] == v[|v| - 1];
      assert forall k | i < k < |front| :: front[k] == v[i..j][k - i];
      OpenFinds(front, i);
      assert front[i..] + [v[|v| - 1]] == v[i..j];
    }
  }

  /** The scanner finds exactly the well-formed ids of a text: nothing between them, no unclosed
      bracket, no nested one, and none of them missed. */
  lemma TokensAreIds(v: string, id: string)
    ensures id in Tokens(v) <==> HasId(v, id)
    ensures id in Tokens(v) ==> WellFormed(id)
  {
    if id in Tokens(v) {
      TokenIsId(v, id);
    }
    if i: nat, j: nat :| IdAt(v, i, j) && v[i..j] == id {
      IdIsToken(v, i, j);
    }
  }

  /** One more character scanned. */
  lemma OpenStep(v: string, c: char)
    ensures Open(v + [c]) == if c == '<' then |v| else if c == '>' then -1 else Open(v)
  {
    assert (v + [c])[..|v|] == v;
  }

  lemma TokensStep(v: string, c: char)
    ensures Tokens(v + [c]) == Tokens(v) + Emits(v, c)
    ensures Emits(v, c) == [] ==> Tokens(v + [c]) == Tokens(v)
  {
    assert (v + [c])[..|v|] == v;
    assert Tokens(v) + [] == Tokens(v);
  }

  ghost predicate ScansAfresh(a: string, b: string) {
    Tokens(a + b) == Tokens(a) + Tokens(b) && Open(a + b) == if Open(b) >= 0 then |a| + Open(b) else -1
  }

  lemma EmitsAfresh(a: string, front: string, c: char)
    requires Open(a + front) == if Open(front) >= 0 then |a| + Open(front) else -1
    ensures Emits(a + front, c) == Emits(front, c)
  {
    if Open(front) >= 0 {
      assert (a + front)[|a| + Open(front)..] == front[Open(front)..];
    }
  }

  lemma ScansAfreshStep(a: string, front: string, c: char)
    requires ScansAfresh(a, front)
    ensures ScansAfresh(a, front + [c])
  {
    assert (a + front) + [c] == a + (front + [c]);
    OpenStep(front, c);
    OpenStep(a + front, c);
    TokensStep(front, c);
    TokensStep(a + front, c);
    EmitsAfresh(a, front, c);
    SeqAssoc(Tokens(a), Tokens(front), Emits(front, c));
  }

  lemma SeqAssoc(a: seq<string>, b: seq<string>, c: seq<string>)
    ensures a + b + c == a + (b + c)
  {
  }

  /** Scanning on after a point where nothing is open is scanning afresh. */
  lemma {:induction false} TokensConcat(a: string, b: string)
    requires Open(a) < 0
    ensures ScansAfresh(a, b)
    decreases |b|
  {
    if b == "" {
      assert a + b == a;
    } else {
      var front := b[..|b| - 1];
      TokensConcat(a, front);
      ScansAfreshStep(a, front, b[|b| - 1]);
      assert front + [b[|b| - 1]] == b;
    }
  }

  /** An opening bracket and text without any. */
  predicate IsRun(run: string) { run != "" && run[0] == '<' && forall i | 0 < i < |run| :: !IsBracket(run[i]) }

  lemma {:induction false} OpenRun(a: string, run: string)
    requires IsRun(run)
    ensures Open(a + run) == |a| && Tokens(a + run) == Tokens(a)
  {
    var front, c := run[..|run| - 1], run[|run| - 1];
    assert a + run == (a + front) + [c];
    OpenStep(a + front, c);
    TokensStep(a + front, c);
    if |run| > 1 {
      OpenRun(a, front);
    } else {
      assert a + front == a;
    }
  }

  lemma IdIsClosedRun(id: string)
    requires WellFormed(id)
    ensures |id| > 2 && IsRun(id[..|id| - 1]) && id == id[..|id| - 1] + ['>']
  {
  }

  lemma ClosingEmits(gap: string, run: string)
    requires IsRun(run) && |run| > 1
    ensures Tokens(gap + (run + ['>'])) == Tokens(gap) + [run + ['>']] && Open(gap + (run + ['>'])) == -1
  {
    var v := gap + run;
    OpenRun(gap, run);
    OpenStep(v, '>');
    TokensStep(v, '>');
    assert v + ['>'] == gap + (run + ['>']);
    assert v[|gap|..] == run;
  }

  /** A well-formed id is found whatever comes before it and whatever comes after. */
  lemma TokensAround(gap: string, id: string, rest: string)
    requires WellFormed(id)
    ensures Tokens(gap + id + rest) == Tokens(gap) + [id] + Tokens(rest)
  {
    IdIsClosedRun(id);
    ClosingEmits(gap, id[..|id| - 1]);
    TokensConcat(gap + id, rest);
  }

  /** Ids with stray text between them, as header values come. */
  function Woven(gaps: seq<string>, ids: seq<string>): string
    requires |gaps| == |ids| + 1
  {
    if ids == [] then gaps[0] else gaps[0] + ids[0] + Woven(gaps[1..], ids[1..])
  }

  /** Comments, glued values, stray words and unclosed brackets between the ids change nothing:
      the scanner returns those ids, in order. */
  lemma {:induction false} WovenTokens(gaps: seq<string>, ids: seq<string>)
    requires |gaps| == |ids| + 1
    requires (forall id | id in ids :: WellFormed(id)) && (forall gap | gap in gaps :: Tokens(gap) == [])
    ensures Tokens(Woven(gaps, ids)) == ids
  {
    if ids != [] {
      WovenTokens(gaps[1..], ids[1..]);
      TokensAround(gaps[0], ids[0], Woven(gaps[1..], ids[1..]));
    }
  }

  /** parseReferences: the ids of every value, repeats dropped at their later places. */
  method ParseReferences(values: seq<string>) returns (ids: seq<string>)
    ensures ids == Dedup(AllTokens(values))
  {
    ids := [];
    var n := 0;
    while n < |values|
      invariant 0 <= n <= |values|
      invariant AddAll([], AllTokens(values)) == AddAll(ids, AllTokens(values[n..]))
    {
      AddAllConcat(ids, Tokens(values[n]), AllTokens(values[n..][1..]));
      ids := AddTokens(ids, values[n]);
      n := n + 1;
    }
  }

  /** A closing bracket after an open one: what the scanner cuts out is what it emits, if that is
      not empty. */
  lemma ClosesRun(v: string, i: nat)
    requires i < |v| && v[i] == '>' && Open(v[..i]) >= 0
    ensures var id := v[Open(v[..i])..i + 1]; TrimSpace(id) == id && Emits(v[..i], '>') == if id == "<>" then [] else [id]
  {
    var front := v[..i];
    var id := v[Open(front)..i + 1];
    OpenIsOpen(front);
    assert id == front[Open(front)..] + ['>'];
    TrimIsIdentity(id, IsSpace);
  }

  /** One more id, unless it is listed already. */
  method AddToken(all: seq<string>, id: string, ghost ids: seq<string>, ghost tokens: seq<string>) returns (more: seq<string>)
    requires all == AddAll(ids, tokens)
    ensures more == AddAll(ids, tokens + [id])
  {
    AddAllConcat(ids, tokens, [id]);
    assert [id][1..] == [];
    more := if id in all then all else all + [id];
  }

  lemma ScanStep(v: string, i: nat)
    requires i < |v|
    ensures Open(v[..i + 1]) == if v[i] == '<' then i else if v[i] == '>' then -1 else Open(v[..i])
    ensures Tokens(v[..i + 1]) == Tokens(v[..i]) + Emits(v[..i], v[i])
    ensures Emits(v[..i], v[i]) == [] ==> Tokens(v[..i + 1]) == Tokens(v[..i])
  {
    assert v[..i + 1] == v[..i] + [v[i]];
    OpenStep(v[..i], v[i]);
    TokensStep(v[..i], v[i]);
  }

  /** The scan as far as the i-th character: what is open there, and the ids so far. */
  ghost predicate Scanned(ids: seq<string>, v: string, i: nat, start: int, all: seq<string>) {
    i <= |v| && start == Open(v[..i]) && all == AddAll(ids, Tokens(v[..i]))
  }

  /** A closing bracket ends the run that is open, if one is. */
  method CloseRun(all: seq<string>, v: string, start: int, i: nat, ghost ids: seq<string>) returns (more: seq<string>)
    requires i < |v| && v[i] == '>' && Scanned(ids, v, i, start, all)
    ensures Scanned(ids, v, i + 1, -1, more)
  {
    ScanStep(v, i);
    more := all;
    if start >= 0 {
      ClosesRun(v, i);
      var id := TrimSpace(v[start..i + 1]);
      if id != "<>" {
        more := AddToken(all, id, ids, Tokens(v[..i]));
      }
    }
  }

  lemma ScannedOn(ids: seq<string>, v: string, i: nat, start: int, all: seq<string>)
    requires i < |v| && v[i] != '>' && Scanned(ids, v, i, start, all)
    ensures Scanned(ids, v, i + 1, if v[i] == '<' then i else start, all)
  {
    ScanStep(v, i);
  }

  lemma ScanEnds(ids: seq<string>, v: string, start: int, all: seq<string>)
    ensures Scanned(ids, v, 0, -1, ids)
    ensures Scanned(ids, v, |v|, start, all) ==> all == AddAll(ids, Tokens(v))
  {
    assert v[..0] == "" && v[..|v|] == v;
  }

  /** One header value's scan. */
  method AddTokens(ids: seq<string>, v: string) returns (all: seq<string>)
    ensures all == AddAll(ids, Tokens(v))
  {
    all := ids;
    var start, i := -1, 0;
    ScanEnds(ids, v, start, all);
    while i < |v|
      invariant 0 <= i <= |v| && Scanned(ids, v, i, start, all)
    {
      if v[i] == '>' {
        all := CloseRun(all, v, start, i, ids);
        start := -1;
      } else {
        ScannedOn(ids, v, i, start, all);
        if v[i] == '<' {
          start := i;
        }
      }
      i := i + 1;
    }
    ScanEnds(ids, v, start, all);
  }

  // ------------------------------------------------------------------- the thread key

  predicate IsBareBreaker(c: char) { c == ' ' || c == '\t' || IsBracket(c) }

  /** firstMessageID: the first bracketed run, or a bare value that looks like an addr-spec. */
  function FirstMessageID(value: string): string {
    if Tokens(value) != [] then Tokens(value)[0]
    else
      var bare := TrimSpace(value);
      if bare == "" || (exists i | 0 <= i < |bare| :: IsBareBreaker(bare[i])) || '@' !in bare then "" else bare
  }

  datatype Source = FromProvider | FromReferences | FromInReplyTo | FromSelf

  /** What a message says of its place in a conversation. */
  datatype Headers = Headers(messageID: string, inReplyTo: string, references: seq<string>)

  function SynthesizeThread(h: Headers, provider: string, id: string, digest: SinkNames.Sum): (string, Source) {
    if provider != "" then (provider, FromProvider)
    else if Dedup(AllTokens(h.references)) != [] then (Dedup(AllTokens(h.references))[0], FromReferences)
    else if FirstMessageID(h.inReplyTo) != "" then (FirstMessageID(h.inReplyTo), FromInReplyTo)
    else if TrimSpace(h.messageID) != "" then (TrimSpace(h.messageID), FromSelf)
    else if TrimSpace(id) != "" then (TrimSpace(id), FromSelf)
    else ("sha256:" + SinkNames.HexEncode(digest[..16]), FromSelf)
  }

  lemma {:induction false} DedupKeepsFirst(ids: seq<string>, acc: seq<string>)
    ensures acc <= AddAll(acc, ids)
    ensures acc == [] && ids != [] ==> AddAll(acc, ids) != [] && AddAll(acc, ids)[0] == ids[0]
    decreases |ids|
  {
    if ids != [] {
      DedupKeepsFirst(ids[1..], AddNew(acc, ids[0]));
    }
  }

  /** Every message gets a key. */
  lemma ThreadNeverEmpty(h: Headers, provider: string, id: string, digest: SinkNames.Sum)
    ensures SynthesizeThread(h, provider, id, digest).0 != ""
  {
    var tokens := AllTokens(h.references);
    DedupKeepsFirst(tokens, []);
    if tokens != [] {
      TokensAreNotEmpty(h.references, tokens[0]);
    }
    if Tokens(h.inReplyTo) != [] {
      TokensAreIds(h.inReplyTo, Tokens(h.inReplyTo)[0]);
    }
  }

  lemma {:induction false} TokensAreNotEmpty(values: seq<string>, id: string)
    requires id in AllTokens(values)
    ensures id != ""
  {
    if id in Tokens(values[0]) {
      TokensAreIds(values[0], id);
    } else {
      TokensAreNotEmpty(values[1..], id);
    }
  }

  // --------------------------------------------------------------------- reply chains

  /** A reply as section 3.6.4 of RFC 5322 makes one: its References are the parent's References,
      or else the parent's In-Reply-To when that holds a single id, followed by the parent's
      Message-ID; its In-Reply-To is the parent's Message-ID. */
  function ReplyTo(parent: Headers, messageID: string): Headers {
    var before :=
      if parent.references != [] then parent.references
      else if |Tokens(parent.inReplyTo)| == 1 then [parent.inReplyTo]
      else [];
    Headers(messageID, parent.messageID, before + [" " + parent.messageID])
  }

  /** The key of a message no provider has placed. */
  function ThreadOf(h: Headers, id: string, digest: SinkNames.Sum): string { SynthesizeThread(h, "", id, digest).0 }

  /** A message whose References hold an id; or whose In-Reply-To holds none, or exactly one with
      no References beside it. */
  predicate Chains(h: Headers) {
    AllTokens(h.references) != [] || FirstMessageID(h.inReplyTo) == ""
    || (h.references == [] && |Tokens(h.inReplyTo)| == 1)
  }

  lemma {:induction false} AllTokensConcat(a: seq<string>, b: seq<string>)
    ensures AllTokens(a + b) == AllTokens(a) + AllTokens(b)
  {
    if a == [] {
      assert a + b == b;
    } else {
      assert (a + b)[1..] == a[1..] + b;
      AllTokensConcat(a[1..], b);
    }
  }

  lemma ReplyTokens(parent: Headers, messageID: string)
    requires WellFormed(parent.messageID)
    ensures AllTokens(ReplyTo(parent, messageID).references) ==
              (if parent.references != [] then AllTokens(parent.references)
               else if |Tokens(parent.inReplyTo)| == 1 then Tokens(parent.inReplyTo)
               else []) + [parent.messageID]
  {
    var last := " " + parent.messageID;
    assert Tokens(" ") == Tokens("") && last + "" == last;
    TokensAround(" ", parent.messageID, "");
    assert [last][1..] == [] && AllTokens([last]) == [parent.messageID];
    var r := ReplyTo(parent, messageID).references;
    if parent.references != [] {
      AllTokensConcat(parent.references, [last]);
    } else if |Tokens(parent.inReplyTo)| == 1 {
      AllTokensConcat([parent.inReplyTo], [last]);
      assert [parent.inReplyTo][1..] == [] && AllTokens([parent.inReplyTo]) == Tokens(parent.inReplyTo);
    } else {
      assert r == [last];
    }
  }

  lemma WellFormedIsTrimmed(id: string)
    requires WellFormed(id)
    ensures TrimSpace(id) == id
  {
    TrimIsIdentity(id, IsSpace);
  }

  /** Exactly when a reply joins its parent's thread: the parent chains, or names itself. A parent
      that has no readable References and several ids in its In-Reply-To is keyed on the first of
      those, and its replies, which section 3.6.4 gives only its own id, are not. */
  lemma ReplyJoinsParent(parent: Headers, messageID: string, id: string, digest: SinkNames.Sum, id': string, digest': SinkNames.Sum)
    requires WellFormed(parent.messageID)
    ensures ThreadOf(ReplyTo(parent, messageID), id', digest') == ThreadOf(parent, id, digest)
       <==> Chains(parent) || FirstMessageID(parent.inReplyTo) == parent.messageID
  {
    ReplyTokens(parent, messageID);
    var tokens := AllTokens(ReplyTo(parent, messageID).references);
    DedupKeepsFirst(tokens, []);
    DedupKeepsFirst(AllTokens(parent.references), []);
    if Tokens(parent.inReplyTo) != [] {
      TokensAreIds(parent.inReplyTo, Tokens(parent.inReplyTo)[0]);
    }
    WellFormedIsTrimmed(parent.messageID);
  }

  lemma LeadingToken(id: string, rest: string)
    requires WellFormed(id)
    ensures Tokens(id + rest) == [id] + Tokens(rest)
  {
    TokensAround("", id, rest);
    assert "" + id == id;
    assert Tokens("") + [id] == [id];
  }

  lemma TwoTokens(a: string, b: string)
    requires WellFormed(a) && WellFormed(b)
    ensures Tokens(a + b) == [a, b]
  {
    LeadingToken(a, b);
    LeadingToken(b, "");
    assert b + "" == b;
    assert Tokens(b) == [b] + [] == [b];
    assert [a] + [b] == [a, b];
  }

  lemma KeyOfReferences(h: Headers, key: string, id: string, digest: SinkNames.Sum)
    requires AllTokens(h.references) == [key]
    ensures ThreadOf(h, id, digest) == key
  {
    DedupKeepsFirst([key], []);
  }

  lemma KeyOfInReplyTo(h: Headers, id: string, digest: SinkNames.Sum)
    requires h.references == [] && Tokens(h.inReplyTo) != [] && Tokens(h.inReplyTo)[0] != ""
    ensures ThreadOf(h, id, digest) == Tokens(h.inReplyTo)[0]
  {
  }

  /** A message that answers two others at once, and any reply to it. */
  lemma TwoParentsSplit(a: string, b: string, m: string, reply: string, id: string, digest: SinkNames.Sum, id': string, digest': SinkNames.Sum)
    requires WellFormed(a) && WellFormed(b) && WellFormed(m)
    ensures var parent := Headers(m, a + b, []);
            ThreadOf(parent, id, digest) == a && ThreadOf(ReplyTo(parent, reply), id', digest') == m
  {
    var parent := Headers(m, a + b, []);
    TwoTokens(a, b);
    KeyOfInReplyTo(parent, id, digest);
    ReplyTokens(parent, reply);
    assert [] + [m] == [m];
    KeyOfReferences(ReplyTo(parent, reply), m, id', digest');
  }

  /** Two threads of one exchange. */
  lemma ExchangeSplits(reply: string, id: string, digest: SinkNames.Sum, id': string, digest': SinkNames.Sum)
    ensures var parent := Headers("<m>", "<a>" + "<b>", []);
            ThreadOf(parent, id, digest) == "<a>" && ThreadOf(ReplyTo(parent, reply), id', digest') == "<m>"
  {
    TwoParentsSplit("<a>", "<b>", "<m>", reply, id, digest, id', digest');
  }

  /** A conversation below one message: each reply's parent is an earlier message. */
  datatype Reply = Reply(parent: nat, messageID: string)

  function Conversation(root: Headers, replies: seq<Reply>): seq<Headers>
    requires forall i | 0 <= i < |replies| :: replies[i].parent <= i
    ensures |Conversation(root, replies)| == |replies| + 1
  {
    if replies == [] then [root]
    else
      var before, last := Conversation(root, replies[..|replies| - 1]), replies[|replies| - 1];
      before + [ReplyTo(before[last.parent], last.messageID)]
  }

  /** Reply chains group: below a message that chains, every message of the tree gets its key. */
  lemma {:induction false} ConversationsGroup(root: Headers, replies: seq<Reply>, k: nat, id: string, digest: SinkNames.Sum)
    requires forall i | 0 <= i < |replies| :: replies[i].parent <= i && WellFormed(replies[i].messageID)
    requires WellFormed(root.messageID) && Chains(root) && k <= |replies|
    ensures var h := Conversation(root, replies)[k];
            ThreadOf(h, id, digest) == ThreadOf(root, id, digest) && Chains(h) && WellFormed(h.messageID)
    decreases |replies|
  {
    if replies != [] {
      var front, last := replies[..|replies| - 1], replies[|replies| - 1];
      var before := Conversation(root, front);
      if k < |replies| {
        ConversationsGroup(root, front, k, id, digest);
      } else {
        ConversationsGroup(root, front, last.parent, id, digest);
        ReplyJoinsParent(before[last.parent], last.messageID, id, digest, id, digest);
        ReplyTokens(before[last.parent], last.messageID);
      }
    }
  }
}
