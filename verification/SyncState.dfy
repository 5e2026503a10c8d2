/** The per-account cursor a provider hands back after a fetch (internal/provider/provider.go). */
module Sync {
  import opened Text
  import opened Seqs

  const MAX_SEEN_IDS := 2000

  /** The value of a cursor: what is on disk, what Clone copies. A zero LastSyncTime is None. */
  datatype State = State(historyId: nat, lastSync: Option<int>, extra: map<string, string>, seen: seq<string>)

  const NEVER_SYNCED := State(0, None, map[], [])

  function TrimSeenIDs(ids: seq<string>): seq<string> {
    if |ids| <= MAX_SEEN_IDS then ids else ids[|ids| - MAX_SEEN_IDS..]
  }

  function Marked(seen: seq<string>, id: string): seq<string> {
    if id == "" || id in seen then seen else TrimSeenIDs(seen + [id])
  }

  function MarkedAll(seen: seq<string>, ids: seq<string>): seq<string>
    decreases |ids|
  {
    if ids == [] then seen else MarkedAll(Marked(seen, ids[0]), ids[1..])
  }

  function Extra(extra: map<string, string>, key: string): string {
    if key in extra then extra[key] else ""
  }

  function WithExtra(extra: map<string, string>, key: string, value: string): map<string, string> {
    if value == "" then extra - {key} else extra[key := value]
  }

  /** A bounded set, as a list without repeats. */
  ghost predicate SeenBounded(seen: seq<string>) { Distinct(seen) && |seen| <= MAX_SEEN_IDS }

  /** The seen set stays a bounded FIFO without repeats, holding only what it held or was told. */
  lemma {:induction false} MarkedAllKeeps(seen: seq<string>, ids: seq<string>)
    requires SeenBounded(seen)
    ensures var r := MarkedAll(seen, ids); SeenBounded(r) && forall id | id in r :: id in seen || id in ids
    decreases |ids|
  {
    if ids != [] {
      MarkedAllKeeps(Marked(seen, ids[0]), ids[1..]);
      assert forall id | id in Marked(seen, ids[0]) :: id in seen || id == ids[0];
    }
  }

  /** An id is forgotten only once as many ids have been marked after it as the set can hold. */
  lemma {:induction false} RecentIsRemembered(seen: seq<string>, i: nat, ids: seq<string>)
    requires i < |seen| <= MAX_SEEN_IDS && |seen| - i + |ids| <= MAX_SEEN_IDS
    ensures seen[i] in MarkedAll(seen, ids)
    decreases |ids|
  {
    if ids != [] {
      var next := Marked(seen, ids[0]);
      if next == seen {
        RecentIsRemembered(seen, i, ids[1..]);
      } else {
        var dropped := |seen| + 1 - |next|;
        assert next[i - dropped] == seen[i];
        RecentIsRemembered(next, i - dropped, ids[1..]);
      }
    }
  }

  class SyncState {
    var historyId: nat
    var lastSync: Option<int>
    var extra: map<string, string>
    var seen: seq<string>

    function Value(): State
      reads this
    {
      State(historyId, lastSync, extra, seen)
    }

    /** Clone: a copy the caller may change without disturbing the one it was made from. */
    constructor Clone(st: State)
      ensures Value() == st
    {
      historyId, lastSync, extra, seen := st.historyId, st.lastSync, st.extra, st.seen;
    }

    method Seen(id: string) returns (r: bool)
      ensures r <==> id in seen
    {
      var i := 0;
      while i < |seen|
        invariant 0 <= i <= |seen|
        invariant id !in seen[..i]
      {
        if seen[i] == id {
          return true;
        }
        i := i + 1;
      }
      r := false;
    }

    method MarkSeen(id: string)
      modifies this
      ensures Value() == old(Value()).(seen := Marked(old(seen), id))
    {
      var present := Seen(id);
      if id == "" || present {
        return;
      }
      seen := TrimSeenIDs(seen + [id]);
    }

    function GetExtra(key: string): string
      reads this
    {
      Extra(extra, key)
    }

    method SetExtra(key: string, value: string)
      modifies this
      ensures Value() == old(Value()).(extra := WithExtra(old(extra), key, value))
    {
      if value == "" {
        extra := extra - {key};
        return;
      }
      extra := extra[key := value];
    }
  }
}
