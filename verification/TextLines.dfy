/** Text as lines. */
module TextLines {
  import opened Text
  import opened Seqs

  /** strings.Split(s, "\n"). */
  function SplitLines(s: string): (lines: seq<string>)
    ensures lines != []
  {
    var nl := IndexOf(s, '\n');
    if nl < 0 then [s] else [s[..nl]] + SplitLines(s[nl + 1..])
  }

  /** strings.Join(lines, "\n"). */
  function JoinLines(lines: seq<string>): string {
    if lines == [] then ""
    else if |lines| == 1 then lines[0]
    else lines[0] + "\n" + JoinLines(lines[1..])
  }

  lemma SplitCons(s: string)
    ensures var nl := IndexOf(s, '\n');
            nl >= 0 ==> s == s[..nl] + "\n" + s[nl + 1..] && SplitLines(s) == [s[..nl]] + SplitLines(s[nl + 1..])
  {
    var nl := IndexOf(s, '\n');
    if nl >= 0 {
      assert s == s[..nl] + [s[nl]] + s[nl + 1..];
    }
  }

  lemma JoinCons(line: string, lines: seq<string>)
    requires lines != []
    ensures JoinLines([line] + lines) == line + "\n" + JoinLines(lines)
  {
    assert ([line] + lines)[1..] == lines;
  }

  lemma {:induction false} JoinUndoesSplit(s: string)
    ensures JoinLines(SplitLines(s)) == s
    decreases |s|
  {
    var nl := IndexOf(s, '\n');
    if nl >= 0 {
      SplitCons(s);
      JoinUndoesSplit(s[nl + 1..]);
      JoinCons(s[..nl], SplitLines(s[nl + 1..]));
    }
  }

  lemma {:induction false} LinesHoldNoEnd(s: string, line: string)
    requires line in SplitLines(s)
    ensures '\n' !in line && ('\r' !in s ==> '\r' !in line)
    decreases |s|
  {
    var nl := IndexOf(s, '\n');
    if nl >= 0 {
      SplitCons(s);
      if line != s[..nl] {
        LinesHoldNoEnd(s[nl + 1..], line);
      }
    }
  }

  lemma SplitAfter(line: string, rest: string)
    requires '\n' !in line
    ensures SplitLines(line + "\n" + rest) == [line] + SplitLines(rest)
  {
    var s := line + "\n" + rest;
    var nl := IndexOf(s, '\n');
    assert s[|line|] == '\n' && s[..|line|] == line && s[|line| + 1..] == rest;
    assert forall k | 0 <= k < nl :: s[k] == s[..nl][k] && s[..nl][k] in s[..nl];
    assert nl == |line|;
  }

  /** Lines as a program writes them. */
  function Ended(raws: seq<string>): string {
    if raws == [] then "" else raws[0] + "\n" + Ended(raws[1..])
  }

  lemma EndedCons(raw: string, more: seq<string>, rest: string)
    ensures Ended([raw] + more) + rest == raw + "\n" + (Ended(more) + rest)
  {
    assert ([raw] + more)[1..] == more;
    Assoc(raw + "\n", Ended(more), rest);
  }

  lemma {:induction false} SplitEnded(raws: seq<string>, rest: string)
    requires forall raw | raw in raws :: '\n' !in raw
    ensures SplitLines(Ended(raws) + rest) == raws + SplitLines(rest)
  {
    if raws == [] {
      assert Ended(raws) + rest == rest;
    } else {
      var raw, more := raws[0], raws[1..];
      assert raws == [raw] + more && raw in raws;
      SplitEnded(more, rest);
      EndedCons(raw, more, rest);
      SplitAfter(raw, Ended(more) + rest);
      ConsConcat(raw, more, SplitLines(rest));
    }
  }
}
