/** Text reduced to its acceptable stretches: the shape behind every name made from a subject
    or a filename. */
module Stretches {
  import opened Text

  /** The maximal stretches of a text whose characters satisfy p, in order. */
  function Runs(s: string, p: char -> bool): (runs: seq<string>)
    ensures forall r | r in runs :: r != "" && All(r, p)
    ensures s != "" && p(s[|s| - 1]) ==> runs != []
  {
    if s == "" then []
    else
      var front, c := s[..|s| - 1], s[|s| - 1];
      var runs := Runs(front, p);
      if !p(c) then runs
      else if front != "" && p(front[|front| - 1]) then
        var closed, open := runs[..|runs| - 1], runs[|runs| - 1];
        assert open in runs && forall r | r in closed :: r in runs;
        closed + [open + [c]]
      else runs + [[c]]
  }

  function JoinRuns(runs: seq<string>): string {
    if runs == [] then ""
    else if |runs| == 1 then runs[0]
    else JoinRuns(runs[..|runs| - 1]) + "-" + runs[|runs| - 1]
  }

  lemma JoinRunsEmpty(runs: seq<string>)
    requires forall r | r in runs :: r != ""
    ensures JoinRuns(runs) == "" <==> runs == []
  {
    if |runs| > 0 {
      assert runs[|runs| - 1] in runs;
    }
  }

  /** Joining adds only dashes between the runs, and starts and ends with a run. */
  lemma {:induction false} JoinRunsKeeps(runs: seq<string>, p: char -> bool)
    requires forall r | r in runs :: r != "" && All(r, p)
    ensures forall i | 0 <= i < |JoinRuns(runs)| :: p(JoinRuns(runs)[i]) || JoinRuns(runs)[i] == '-'
    ensures runs != [] ==> JoinRuns(runs) != "" && p(JoinRuns(runs)[0])
  {
    if |runs| > 1 {
      var front, last := runs[..|runs| - 1], runs[|runs| - 1];
      assert last in runs && forall r | r in front :: r in runs;
      JoinRunsKeeps(front, p);
    } else if |runs| == 1 {
      assert runs[0] in runs;
    }
  }

  lemma JoinRunsAppend(runs: seq<string>, run: string)
    ensures JoinRuns(runs + [run]) == if runs == [] then run else JoinRuns(runs) + "-" + run
  {
    assert (runs + [run])[..|runs|] == runs;
  }

  /** Growing the last run grows the joined text by the same character. */
  lemma JoinRunsExtend(runs: seq<string>, c: char)
    requires runs != []
    ensures JoinRuns(runs[..|runs| - 1] + [runs[|runs| - 1] + [c]]) == JoinRuns(runs) + [c]
  {
    var front, last := runs[..|runs| - 1], runs[|runs| - 1];
    assert runs == front + [last];
    JoinRunsAppend(front, last);
    JoinRunsAppend(front, last + [c]);
    Assoc(JoinRuns(front) + "-", last, [c]);
  }

  function Joined(s: string, p: char -> bool): string { JoinRuns(Runs(s, p)) }

  lemma JoinedStep(s: string, c: char, p: char -> bool)
    ensures Joined(s + [c], p) ==
            if !p(c) then Joined(s, p)
            else if s != "" && p(s[|s| - 1]) then Joined(s, p) + [c]
            else if Joined(s, p) == "" then [c]
            else Joined(s, p) + "-" + [c]
    ensures s != "" && p(s[|s| - 1]) ==> Joined(s, p) != ""
  {
    assert (s + [c])[..|s|] == s;
    JoinRunsEmpty(Runs(s, p));
    if p(c) {
      if s != "" && p(s[|s| - 1]) {
        JoinRunsExtend(Runs(s, p), c);
      } else {
        JoinRunsAppend(Runs(s, p), [c]);
      }
    }
  }

  /** A builder and its flag after the first i characters: the flag is whether the last of them was
      unacceptable, and only then may a dash be waiting. */
  ghost predicate Built(s: string, i: nat, b: string, dash: bool, p: char -> bool)
    requires i <= |s|
  {
    && (dash <==> i > 0 && !p(s[i - 1]))
    && b == if dash && Joined(s[..i], p) != "" then Joined(s[..i], p) + "-" else Joined(s[..i], p)
  }

  lemma BuiltAtStart(s: string, p: char -> bool)
    ensures Built(s, 0, "", false, p)
  {
    assert s[..0] == "";
  }

  /** An acceptable character is written; the first unacceptable one after something leaves a dash. */
  lemma BuiltStep(s: string, i: nat, b: string, dash: bool, p: char -> bool)
    requires i < |s| && Built(s, i, b, dash, p)
    ensures p(s[i]) ==> Built(s, i + 1, b + [s[i]], false, p)
    ensures !p(s[i]) ==> Built(s, i + 1, if !dash && b != "" then b + "-" else b, true, p)
  {
    var front := s[..i];
    JoinedStep(front, s[i], p);
    assert s[..i + 1] == front + [s[i]];
    assert i > 0 ==> front[|front| - 1] == s[i - 1];
    assert i == 0 ==> front == "" && Joined(front, p) == "";
  }
}
