/** Where an undeliverable message is parked (internal/pipeline/quarantine.go). */
module Quarantine {
  import opened Text
  import opened ImapKeys

  predicate IsDot(c: char) { c == '.' }

  function Clean(s: string): (r: string)
    ensures |r| == |s| && forall i | 0 <= i < |s| :: r[i] == if IsSafe(s[i]) then s[i] else '_'
  {
    seq(|s|, i requires 0 <= i < |s| => if IsSafe(s[i]) then s[i] else '_')
  }

  /** One safe path segment for an account name or a message id. */
  function SafeSegment(s: string): string {
    var out := Trim(Clean(s), IsDot);
    if out == "" then "unknown" else out
  }

  method BuildSafeSegment(s: string) returns (r: string)
    ensures r == SafeSegment(s)
  {
    var b := "";
    var i := 0;
    while i < |s|
      invariant 0 <= i <= |s|
      invariant b == Clean(s)[..i]
    {
      b := b + if IsSafe(s[i]) then [s[i]] else "_";
      i := i + 1;
    }
    assert b == Clean(s);
    r := Trim(b, IsDot);
    if r == "" {
      r := "unknown";
    }
  }

  function Path(root: string, account: string, id: string): string {
    root + "/" + SafeSegment(account) + "/" + (SafeSegment(id) + ".eml")
  }

  lemma PathDeterminesSegment(root: string, account: string, id: string, id': string)
    requires Path(root, account, id) == Path(root, account, id')
    ensures SafeSegment(id) == SafeSegment(id')
  {
    CancelPrefix(root + "/" + SafeSegment(account) + "/", SafeSegment(id) + ".eml", SafeSegment(id') + ".eml");
    CancelSuffix(SafeSegment(id), SafeSegment(id'), ".eml");
  }

  /** An id that is already a safe segment is parked under itself, so such ids never share a path. */
  lemma SafeIdsKeepTheirName(id: string)
    requires id != "" && All(id, IsSafe) && id[0] != '.' && id[|id| - 1] != '.'
    ensures SafeSegment(id) == id
  {
    assert Clean(id) == id;
    TrimIsIdentity(id, IsDot);
  }

  lemma CleanConcat(a: string, b: string)
    ensures Clean(a + b) == Clean(a) + Clean(b)
  {
  }

  lemma CleanDec(n: nat)
    ensures Clean(Dec(n)) == Dec(n)
  {
    assert forall i | 0 <= i < |Dec(n)| :: IsSafe(Dec(n)[i]);
  }

  lemma {:induction false} TrimLeftOnlyTouchesTheFront(a: string, b: string)
    requires b == "" || !IsDot(b[0])
    ensures TrimLeft(a + b, IsDot) == TrimLeft(a, IsDot) + b
  {
    if a == "" {
      assert a + b == b;
    } else if IsDot(a[0]) {
      assert (a + b)[1..] == a[1..] + b;
      TrimLeftOnlyTouchesTheFront(a[1..], b);
    }
  }

  function IdTail(mailbox: string, validity: nat, uid: nat): string {
    ":" + mailbox + ":" + Dec(validity) + ":" + Dec(uid)
  }

  lemma CleanIdTail(mailbox: string, validity: nat, uid: nat)
    ensures Clean(IdTail(mailbox, validity, uid)) == "_" + Clean(mailbox) + "_" + Dec(validity) + "_" + Dec(uid)
  {
    CleanDec(validity);
    CleanDec(uid);
    CleanConcat(":" + mailbox + ":" + Dec(validity) + ":", Dec(uid));
    CleanConcat(":" + mailbox + ":" + Dec(validity), ":");
    CleanConcat(":" + mailbox + ":", Dec(validity));
    CleanConcat(":" + mailbox, ":");
    CleanConcat(":", mailbox);
    assert Clean(":") == "_";
  }

  lemma TrimRightKeepsDigit(s: string)
    requires s != "" && IsDigit(s[|s| - 1])
    ensures TrimRight(s, IsDot) == s
  {
    assert !IsDot(s[|s| - 1]);
  }

  /** What follows an account in an id is kept whole if it does not clean to a leading dot, and ends in
      a digit. */
  lemma TailSurvives(account: string, tail: string)
    requires Clean(tail) != "" && Clean(tail)[0] != '.' && IsDigit(Clean(tail)[|Clean(tail)| - 1])
    ensures SafeSegment(account + tail) == TrimLeft(Clean(account), IsDot) + Clean(tail)
  {
    CleanConcat(account, tail);
    TrimLeftOnlyTouchesTheFront(Clean(account), Clean(tail));
    TrimRightKeepsDigit(TrimLeft(Clean(account), IsDot) + Clean(tail));
  }

  lemma EndsInDigit(s: string, uid: nat)
    ensures (s + Dec(uid)) != "" && IsDigit((s + Dec(uid))[|s + Dec(uid)| - 1])
  {
    assert (s + Dec(uid))[|s + Dec(uid)| - 1] == Dec(uid)[|Dec(uid)| - 1];
  }

  /** An IMAP id's segment: the account without leading dots, then the rest of the id cleaned. */
  lemma ImapSegment(account: string, mailbox: string, validity: nat, uid: nat)
    ensures SafeSegment(MessageID(account, mailbox, validity, uid)) ==
            TrimLeft(Clean(account), IsDot) + ("_" + Clean(mailbox)) + "_" + Dec(validity) + "_" + Dec(uid)
  {
    var tail := IdTail(mailbox, validity, uid);
    MessageIDIs(account, mailbox, validity, uid);
    CleanIdTail(mailbox, validity, uid);
    EndsInDigit("_" + Clean(mailbox) + "_" + Dec(validity) + "_", uid);
    TailSurvives(account, tail);
    Regroup(TrimLeft(Clean(account), IsDot), Clean(mailbox), Dec(validity), Dec(uid));
  }

  lemma MessageIDIs(account: string, mailbox: string, validity: nat, uid: nat)
    ensures MessageID(account, mailbox, validity, uid) == account + IdTail(mailbox, validity, uid)
  {
  }

  lemma Regroup(a: string, b: string, c: string, d: string)
    ensures a + ("_" + b + "_" + c + "_" + d) == a + ("_" + b) + "_" + c + "_" + d
  {
    Assoc(a, "_" + b, "_" + c + "_" + d);
    assert ("_" + b) + ("_" + c + "_" + d) == "_" + b + "_" + c + "_" + d;
  }

  /** Exactly when two quarantined messages of one IMAP account overwrite each other: same
      validity, same uid, and mailbox names that clean to the same text. Within one mailbox,
      or under mailbox names that stay distinct when cleaned, no two messages ever collide. */
  lemma ImapCollision(account: string, m1: string, v1: nat, u1: nat, m2: string, v2: nat, u2: nat)
    ensures SafeSegment(MessageID(account, m1, v1, u1)) == SafeSegment(MessageID(account, m2, v2, u2))
       <==> Clean(m1) == Clean(m2) && v1 == v2 && u1 == u2
  {
    ImapSegment(account, m1, v1, u1);
    ImapSegment(account, m2, v2, u2);
    if SafeSegment(MessageID(account, m1, v1, u1)) == SafeSegment(MessageID(account, m2, v2, u2)) {
      var p := TrimLeft(Clean(account), IsDot);
      var q1, q2 := p + ("_" + Clean(m1)), p + ("_" + Clean(m2));
      DecHasNo(u1, '_');
      DecHasNo(u2, '_');
      LastSeparator(q1 + "_" + Dec(v1), Dec(u1), q2 + "_" + Dec(v2), Dec(u2), '_');
      DecInjective(u1, u2);
      DecHasNo(v1, '_');
      DecHasNo(v2, '_');
      LastSeparator(q1, Dec(v1), q2, Dec(v2), '_');
      DecInjective(v1, v2);
      CancelPrefix(p, "_" + Clean(m1), "_" + Clean(m2));
      CancelPrefix("_", Clean(m1), Clean(m2));
    }
  }

  /** safeSegment is not injective: mailboxes `a/b` and `a b` park their messages on one path. */
  lemma SegmentsCanCollide(account: string, validity: nat, uid: nat)
    ensures MessageID(account, "a/b", validity, uid) != MessageID(account, "a b", validity, uid)
    ensures SafeSegment(MessageID(account, "a/b", validity, uid)) == SafeSegment(MessageID(account, "a b", validity, uid))
  {
    assert Clean("a/b") == Clean("a b");
    ImapCollision(account, "a/b", validity, uid, "a b", validity, uid);
    assert "a/b"[1] != "a b"[1];
    if MessageID(account, "a/b", validity, uid) == MessageID(account, "a b", validity, uid) {
      MessageIDInjective(account, "a/b", validity, uid, "a b", validity, uid);
    }
  }
}
