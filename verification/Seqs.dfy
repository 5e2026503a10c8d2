/** Lists that refuse repeats, the way Go code keeps a slice beside a seen map. */
module Seqs {

  predicate Distinct<T(==)>(s: seq<T>) { forall i, j | 0 <= i < j < |s| :: s[i] != s[j] }

  function AddNew<T(==)>(s: seq<T>, x: T): seq<T> { if x in s then s else s + [x] }

  function AddAll<T(==)>(s: seq<T>, more: seq<T>): seq<T>
    decreases |more|
  {
    if more == [] then s else AddAll(AddNew(s, more[0]), more[1..])
  }

  /** The elements of a list once each, in first-use order. */
  function Dedup<T(==)>(s: seq<T>): seq<T> { AddAll([], s) }

  lemma {:induction false} AddAllConcat<T>(s: seq<T>, a: seq<T>, b: seq<T>)
    ensures AddAll(s, a + b) == AddAll(AddAll(s, a), b)
    decreases |a|
  {
    if a == [] {
      assert a + b == b;
    } else {
      assert (a + b)[1..] == a[1..] + b;
      AddAllConcat(AddNew(s, a[0]), a[1..], b);
    }
  }

  /** AddAll keeps what was there, in place, and appends each new element exactly once. */
  lemma {:induction false} AddAllCollects<T>(s: seq<T>, more: seq<T>)
    requires Distinct(s)
    ensures var r := AddAll(s, more);
            Distinct(r) && s <= r && forall x :: x in r <==> x in s || x in more
    decreases |more|
  {
    if more != [] {
      assert forall x :: x in more <==> x == more[0] || x in more[1..];
      AddAllCollects(AddNew(s, more[0]), more[1..]);
    }
  }

  lemma ConsConcat<T>(x: T, a: seq<T>, b: seq<T>)
    ensures [x] + (a + b) == [x] + a + b
  {
  }

  /** Each output relates to its input and to the outputs before it. */
  ghost predicate Threaded<A, B>(ok: (seq<B>, A, B) -> bool, inputs: seq<A>, outputs: seq<B>) {
    |inputs| == |outputs| && forall i | 0 <= i < |outputs| :: ok(outputs[..i], inputs[i], outputs[i])
  }

  lemma ThreadedStep<A, B>(ok: (seq<B>, A, B) -> bool, inputs: seq<A>, outputs: seq<B>, x: A, y: B)
    requires Threaded(ok, inputs, outputs) && ok(outputs, x, y)
    ensures Threaded(ok, inputs + [x], outputs + [y])
  {
    var more := outputs + [y];
    forall i | 0 <= i < |more| ensures ok(more[..i], (inputs + [x])[i], more[i]) {
      assert more[..i] == outputs[..i];
      assert outputs[..|outputs|] == outputs;
    }
  }

  lemma ThreadedNext<A, B>(ok: (seq<B>, A, B) -> bool, inputs: seq<A>, i: nat, outputs: seq<B>, y: B)
    requires i < |inputs| && Threaded(ok, inputs[..i], outputs) && ok(outputs, inputs[i], y)
    ensures Threaded(ok, inputs[..i + 1], outputs + [y])
  {
    ThreadedStep(ok, inputs[..i], outputs, inputs[i], y);
    assert inputs[..i + 1] == inputs[..i] + [inputs[i]];
  }
}
