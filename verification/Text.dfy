/** Strings as the Go standard library treats them: decimal numerals, separators,
    prefixes and suffixes. Everything the names, keys and parsers are built from. */
module Text {

  datatype Option<+T> = None | Some(value: T)

  // ---------------------------------------------------------------- characters

  predicate IsDigit(c: char) { '0' <= c <= '9' }

  predicate IsLowerLetter(c: char) { 'a' <= c <= 'z' }

  predicate IsUpperLetter(c: char) { 'A' <= c <= 'Z' }

  /** The characters every file name made from outside text is reduced to. */
  predicate IsSafe(c: char) {
    IsLowerLetter(c) || IsUpperLetter(c) || IsDigit(c) || c == '.' || c == '_' || c == '-'
  }

  /** unicode.IsSpace. */
  predicate IsSpace(c: char) {
    || c == ' ' || '\t' <= c <= '\r' || c == '\U{85}' || c == '\U{A0}'
    || c == '\U{1680}' || '\U{2000}' <= c <= '\U{200A}' || c == '\U{2028}' || c == '\U{2029}'
    || c == '\U{202F}' || c == '\U{205F}' || c == '\U{3000}'
  }

  predicate All(s: string, p: char -> bool) { forall i | 0 <= i < |s| :: p(s[i]) }

  // ------------------------------------------------------- trimming and lookup

  function TrimLeft(s: string, p: char -> bool): string {
    if s != "" && p(s[0]) then TrimLeft(s[1..], p) else s
  }

  function TrimRight(s: string, p: char -> bool): string {
    if s != "" && p(s[|s| - 1]) then TrimRight(s[..|s| - 1], p) else s
  }

  lemma {:induction false} TrimLeftDrops(s: string, p: char -> bool)
    ensures var r := TrimLeft(s, p); |r| <= |s| && r == s[|s| - |r|..] && (r != "" ==> !p(r[0]))
  {
    if s != "" && p(s[0]) {
      TrimLeftDrops(s[1..], p);
      var r := TrimLeft(s[1..], p);
      assert s[1..][|s| - 1 - |r|..] == s[|s| - |r|..];
    }
  }

  lemma {:induction false} TrimRightDrops(s: string, p: char -> bool)
    ensures var r := TrimRight(s, p); |r| <= |s| && r == s[..|r|] && (r != "" ==> !p(r[|r| - 1]))
  {
    if s != "" && p(s[|s| - 1]) {
      TrimRightDrops(s[..|s| - 1], p);
      var r := TrimRight(s[..|s| - 1], p);
      assert s[..|s| - 1][..|r|] == s[..|r|];
    }
  }

  lemma {:induction false} TrimRightStops(s: string, p: char -> bool)
    requires s != "" && !p(s[0])
    ensures TrimRight(s, p) != "" && TrimRight(s, p)[0] == s[0]
  {
    if p(s[|s| - 1]) {
      TrimRightStops(s[..|s| - 1], p);
    }
  }

  lemma AllConcat(a: string, b: string, p: char -> bool)
    ensures All(a + b, p) <==> All(a, p) && All(b, p)
  {
    if All(a + b, p) {
      assert forall i | 0 <= i < |a| :: a[i] == (a + b)[i];
      assert forall i | 0 <= i < |b| :: b[i] == (a + b)[|a| + i];
    }
  }

  lemma AllSlice(s: string, lo: nat, hi: nat, p: char -> bool)
    requires lo <= hi <= |s| && All(s, p)
    ensures All(s[lo..hi], p)
  {
    assert forall i | 0 <= i < hi - lo :: s[lo..hi][i] == s[lo + i];
  }

  function Trim(s: string, p: char -> bool): string { TrimRight(TrimLeft(s, p), p) }

  /** Trimming keeps one stretch of the text, and its ends are not trimmable. */
  lemma TrimKeeps(s: string, p: char -> bool) returns (i: nat)
    ensures var r := Trim(s, p);
            && (r != "" ==> !p(r[0]) && !p(r[|r| - 1]))
            && i + |r| <= |s| && r == s[i..i + |r|]
  {
    TrimLeftDrops(s, p);
    var left := TrimLeft(s, p);
    TrimRightDrops(left, p);
    i := |s| - |left|;
    assert Trim(s, p) == s[i..][..|Trim(s, p)|] == s[i..i + |Trim(s, p)|];
  }

  function TrimSpace(s: string): string { Trim(s, IsSpace) }

  lemma TrimIsIdentity(s: string, p: char -> bool)
    requires s != "" ==> !p(s[0]) && !p(s[|s| - 1])
    ensures Trim(s, p) == s
  {
  }

  function IndexOf(s: string, c: char): (r: int)
    ensures -1 <= r < |s|
    ensures r == -1 <==> c !in s
    ensures r >= 0 ==> s[r] == c && c !in s[..r]
  {
    if s == "" then -1
    else if s[0] == c then 0
    else
      var k := IndexOf(s[1..], c);
      assert s == [s[0]] + s[1..];
      if k < 0 then -1 else
        assert s[..k + 1] == [s[0]] + s[1..][..k];
        k + 1
  }

  function LastIndexOf(s: string, c: char): (r: int)
    ensures -1 <= r < |s|
    ensures r == -1 <==> c !in s
    ensures r >= 0 ==> s[r] == c && c !in s[r + 1..]
  {
    if s == "" then -1
    else if s[|s| - 1] == c then |s| - 1
    else
      var front := s[..|s| - 1];
      var k := LastIndexOf(front, c);
      assert s == front + [s[|s| - 1]];
      if k < 0 then -1 else
        assert s[k + 1..] == front[k + 1..] + [s[|s| - 1]];
        k
  }

  predicate HasPrefix(s: string, p: string) { |p| <= |s| && s[..|p|] == p }

  predicate HasSuffix(s: string, p: string) { |p| <= |s| && s[|s| - |p|..] == p }

  lemma SuffixOfConcat(a: string, b: string)
    ensures HasSuffix(a + b, b)
  {
    assert (a + b)[|a|..] == b;
  }

  function Lower(c: char): char {
    if IsUpperLetter(c) then (c as int - 'A' as int + 'a' as int) as char else c
  }

  /** strings.ToLower on ASCII text. */
  function ToLower(s: string): (r: string)
    ensures |r| == |s|
    ensures forall i | 0 <= i < |s| :: r[i] == Lower(s[i])
  {
    seq(|s|, i requires 0 <= i < |s| => Lower(s[i]))
  }

  lemma ToLowerConcat(a: string, b: string)
    ensures ToLower(a + b) == ToLower(a) + ToLower(b)
  {
  }

  // ------------------------------------------------------------------ numerals

  function Digit(d: nat): (c: char)
    requires d < 10
    ensures IsDigit(c) && c as int - '0' as int == d
  {
    ('0' as int + d) as char
  }

  /** strconv.FormatUint(n, 10). */
  function Dec(n: nat): (s: string)
    ensures s != "" && All(s, IsDigit)
  {
    if n < 10 then [Digit(n)] else Dec(n / 10) + [Digit(n % 10)]
  }

  function DigitsValue(s: string): nat
    requires All(s, IsDigit)
  {
    if s == "" then 0
    else 10 * DigitsValue(s[..|s| - 1]) + (s[|s| - 1] as int - '0' as int)
  }

  /** strconv.ParseUint(s, 10, 32), with every error read as None. */
  function ParseUint32(s: string): Option<nat> {
    if s != "" && All(s, IsDigit) && DigitsValue(s) < 0x1_0000_0000 then Some(DigitsValue(s)) else None
  }

  lemma {:induction false} DecValue(n: nat)
    ensures DigitsValue(Dec(n)) == n
  {
    if n < 10 {
      assert Dec(n)[..0] == "";
    } else {
      DecValue(n / 10);
      var s := Dec(n);
      assert s[..|s| - 1] == Dec(n / 10);
    }
  }

  lemma DecInjective(m: nat, n: nat)
    requires Dec(m) == Dec(n)
    ensures m == n
  {
    DecValue(m);
    DecValue(n);
  }

  /** A numeral is at most one digit longer than its predecessor's bound allows. */
  lemma {:induction false} DecLengthMonotone(m: nat, n: nat)
    requires m <= n
    ensures |Dec(m)| <= |Dec(n)|
    decreases n
  {
    if m >= 10 { DecLengthMonotone(m / 10, n / 10); }
  }

  // ----------------------------------------------------------------- cancelling

  /** The last separator of a string splits it in one way only. */
  lemma LastSeparator(x: string, d: string, y: string, e: string, c: char)
    requires c !in d && c !in e
    requires x + [c] + d == y + [c] + e
    ensures x == y && d == e
  {
    var s := x + [c] + d;
    assert s[|x|] == c && s[|y|] == c;
    assert |d| == |e|;
    assert x == s[..|x|] == s[..|y|] == y;
    assert d == s[|x| + 1..] == s[|y| + 1..] == e;
  }

  lemma Assoc(a: string, b: string, c: string)
    ensures a + b + c == a + (b + c)
  {
  }

  lemma CancelPrefix(p: string, x: string, y: string)
    requires p + x == p + y
    ensures x == y
  {
    assert x == (p + x)[|p|..] == (p + y)[|p|..] == y;
  }

  lemma CancelSuffix(x: string, y: string, s: string)
    requires x + s == y + s
    ensures x == y
  {
    assert |x| == |y|;
    assert x == (x + s)[..|x|] == (y + s)[..|y|] == y;
  }
}
