/** Loading and saving an account's cursor (internal/state/store.go). */
module StateStore {
  import opened Text
  import opened Mail
  import opened Sync
  import opened Sinks

  /** The JSON codec: what decoding gives, and an encoding it undoes. */
  datatype Codec = Codec(encode: State -> Bytes, decode: Bytes -> Option<State>)
  {
    ghost predicate Faithful() { forall st :: decode(encode(st)) == Some(st) }
  }

  function Trimmed(st: State): State { st.(seen := TrimSeenIDs(st.seen)) }

  /** Trimming on the way out and again on the way in loses nothing more: a saved state is loaded as
      it was saved, and its bound holds. */
  lemma TrimsOnce(st: State)
    ensures Trimmed(Trimmed(st)) == Trimmed(st) && |Trimmed(st).seen| <= MAX_SEEN_IDS
    ensures |st.seen| <= MAX_SEEN_IDS ==> Trimmed(st) == st
  {
  }

  /** What Load answers for a file: the zero state for none, an error for one it cannot read. */
  function Loaded(nodes: map<string, Node>, path: string, codec: Codec): Option<State> {
    if path !in nodes then Some(NEVER_SYNCED)
    else if !nodes[path].File? then None
    else
      var st := codec.decode(nodes[path].data);
      if st.None? then None else Some(Trimmed(st.value))
  }

  /** Reads; an I/O error is an answer of its own, never a zero state. */
  method Load(disk: Disk, path: string, codec: Codec) returns (st: Option<State>)
    modifies disk`ops
    ensures st.Some? ==> st == Loaded(disk.nodes, path, codec)
    ensures !disk.fault(old(disk.ops)) ==> st == Loaded(disk.nodes, path, codec)
  {
    var i, ok := disk.Try();
    st := if ok then Loaded(disk.nodes, path, codec) else None;
  }

  /** Save: the new state whole, or the old one untouched, wherever it fails or the process dies. */
  method Save(disk: Disk, path: string, codec: Codec, st: State) returns (err: bool)
    requires disk.TempsFresh() && codec.Faithful()
    modifies disk`ops, disk`nodes, disk`temps, disk`nextTemp
    ensures disk.TempsFresh() && SameBut(old(disk.nodes), disk.nodes, {path}, None)
    ensures Loaded(disk.nodes, path, codec) == if err then old(Loaded(disk.nodes, path, codec)) else Some(Trimmed(st))
    ensures !err ==> |Loaded(disk.nodes, path, codec).value.seen| <= MAX_SEEN_IDS
    ensures !err && |st.seen| <= MAX_SEEN_IDS ==> Loaded(disk.nodes, path, codec) == Some(st)
  {
    err := disk.WriteFileAtomic(path, codec.encode(Trimmed(st)));
    TrimsOnce(st);
  }
}
