/** The strings the IMAP provider stores and identifies messages by
    (internal/provider/imap/imap.go). */
module ImapKeys {
  import opened Text

  const EXTRA_PREFIX := "imap."
  const UIDVALIDITY := "uidvalidity"
  const LAST_UID := "last_uid"
  const UID_LIMIT: nat := 0x1_0000_0000

  function ExtraKey(mailbox: string, field: string): string { EXTRA_PREFIX + mailbox + "." + field }

  function FormatUID(uid: nat): string { Dec(uid) }

  /** A stored last_uid; anything unreadable is no cursor at all. */
  function ParseUID(s: string): (uid: nat)
    ensures uid < UID_LIMIT
  {
    var n := ParseUint32(TrimSpace(s));
    if n.Some? then n.value else 0
  }

  function MessageID(account: string, mailbox: string, validity: nat, uid: nat): string {
    account + ":" + mailbox + ":" + Dec(validity) + ":" + FormatUID(uid)
  }

  lemma ParseUndoesFormat(uid: nat)
    requires uid < UID_LIMIT
    ensures ParseUID(FormatUID(uid)) == uid
  {
    var s := Dec(uid);
    assert IsDigit(s[0]) && IsDigit(s[|s| - 1]);
    TrimIsIdentity(s, IsSpace);
    DecValue(uid);
  }

  /** Cursor keys of different mailboxes, or different fields, are different: whatever dots a
      mailbox name holds, the last one ends it, because neither field has one. */
  lemma ExtraKeyInjective(m1: string, f1: string, m2: string, f2: string)
    requires '.' !in f1 && '.' !in f2
    requires ExtraKey(m1, f1) == ExtraKey(m2, f2)
    ensures m1 == m2 && f1 == f2
  {
    LastSeparator(EXTRA_PREFIX + m1, f1, EXTRA_PREFIX + m2, f2, '.');
    CancelPrefix(EXTRA_PREFIX, m1, m2);
  }

  lemma FieldsHaveNoDot()
    ensures '.' !in UIDVALIDITY && '.' !in LAST_UID && UIDVALIDITY != LAST_UID
  {
  }

  lemma DecHasNo(n: nat, c: char)
    requires !IsDigit(c)
    ensures c !in Dec(n)
  {
  }

  /** Within an account an id names one message, even when mailbox names hold colons; a new
      validity value never reuses an id. */
  lemma MessageIDInjective(account: string, m1: string, v1: nat, u1: nat, m2: string, v2: nat, u2: nat)
    requires MessageID(account, m1, v1, u1) == MessageID(account, m2, v2, u2)
    ensures m1 == m2 && v1 == v2 && u1 == u2
  {
    var p1, p2 := account + ":" + m1, account + ":" + m2;
    DecHasNo(u1, ':');
    DecHasNo(u2, ':');
    LastSeparator(p1 + ":" + Dec(v1), Dec(u1), p2 + ":" + Dec(v2), Dec(u2), ':');
    DecInjective(u1, u2);
    DecHasNo(v1, ':');
    DecHasNo(v2, ':');
    LastSeparator(p1, Dec(v1), p2, Dec(v2), ':');
    DecInjective(v1, v2);
    CancelPrefix(account + ":", m1, m2);
  }
}
