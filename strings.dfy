/** The few string operations the source relies on: `str.format` of an integer,
    `os.path.join` and `' '.join(...)`; splitting on single spaces is the inverse of the
    join, there only to state which words a joined command line carries. */
module Strings {

  function Digit(d: nat): (c: char)
    requires d < 10
    ensures '0' <= c <= '9'
  {
    (d + '0' as int) as char
  }

  /** The number a string of decimal digits spells, read left to right; the reference
      reading of the rendered numbers below. */
  function DecimalValue(s: string): nat
    requires forall k :: 0 <= k < |s| ==> '0' <= s[k] <= '9'
  {
    if s == [] then 0 else DecimalValue(s[..|s| - 1]) * 10 + (s[|s| - 1] as int - '0' as int)
  }

  /** A decimal string with an optional leading '-', read as a signed number. */
  function SignedValue(s: string): int
    requires |s| > 0
    requires forall k :: 0 < k < |s| ==> '0' <= s[k] <= '9'
    requires s[0] != '-' ==> '0' <= s[0] <= '9'
  {
    if s[0] == '-' then -(DecimalValue(s[1..]) as int) else DecimalValue(s)
  }

  /** Decimal rendering of a natural number, as `'{}'.format(n)` prints it: digits that
      spell `n`, without leading zeros. */
  function NatToString(n: nat): (s: string)
    ensures |s| > 0
    ensures forall k :: 0 <= k < |s| ==> '0' <= s[k] <= '9'
    ensures DecimalValue(s) == n
    ensures s[0] == '0' <==> n == 0
  {
    if n < 10 then [Digit(n)]
    else
      var high := NatToString(n / 10);
      assert (high + [Digit(n % 10)])[..|high|] == high;
      high + [Digit(n % 10)]
  }

  /** Decimal rendering of an integer, with a leading '-' when it is negative: it reads
      back as `i`. */
  function IntToString(i: int): (s: string)
    ensures |s| > 0
    ensures s[0] == '-' <==> i < 0
    ensures forall k :: 0 < k < |s| ==> '0' <= s[k] <= '9'
    ensures s[0] != '-' ==> '0' <= s[0] <= '9'
    ensures SignedValue(s) == i
  {
    if i < 0 then
      var digits := NatToString(-i);
      assert ("-" + digits)[1..] == digits;
      "-" + digits
    else NatToString(i)
  }

  /** `' '.join(parts)`. */
  function Join(parts: seq<string>): string
  {
    if |parts| == 0 then ""
    else if |parts| == 1 then parts[0]
    else parts[0] + " " + Join(parts[1..])
  }

  /** The pieces between single spaces, empty pieces included, as Python's `s.split(' ')`
      gives them; there is always at least one. */
  function Split(s: string): (pieces: seq<string>)
    ensures |pieces| > 0
  {
    if s == [] then [""]
    else if s[0] == ' ' then [""] + Split(s[1..])
    else
      var rest := Split(s[1..]);
      [[s[0]] + rest[0]] + rest[1..]
  }

  /** `os.path.join(a, b)` for a relative `b`: a separator is added unless `a` is empty or
      already ends with one. */
  function PathJoin(a: string, b: string): string
  {
    if a == [] || a[|a| - 1] == '/' then a + b else a + "/" + b
  }

  /** The joined path starts with `a`, ends with `b`, and has at most one '/' between them. */
  lemma PathJoinParts(a: string, b: string)
    ensures var p := PathJoin(a, b);
            a <= p && |p| >= |b| && p[|p| - |b|..] == b
            && (|p| == |a| + |b| || (|p| == |a| + |b| + 1 && p[|a|] == '/'))
  {
  }

  /** Joining a first word onto a non-empty list puts one space after it. */
  lemma JoinCons(a: string, rest: seq<string>)
    requires |rest| > 0
    ensures Join([a] + rest) == a + " " + Join(rest)
  {
    assert ([a] + rest)[1..] == rest;
  }

  ghost predicate NoSpace(s: string) {
    forall k :: 0 <= k < |s| ==> s[k] != ' '
  }

  lemma NoSpaceAppend(a: string, b: string)
    requires NoSpace(a) && NoSpace(b)
    ensures NoSpace(a + b)
  {
    assert forall k :: |a| <= k < |a + b| ==> (a + b)[k] == b[k - |a|];
  }

  lemma {:induction false} SplitWord(w: string)
    requires NoSpace(w)
    ensures Split(w) == [w]
  {
    if w != [] {
      SplitWord(w[1..]);
      assert [w[0]] + w[1..] == w;
    }
  }

  lemma {:induction false} SplitWordThenSpace(w: string, rest: string)
    requires NoSpace(w)
    ensures Split(w + " " + rest) == [w] + Split(rest)
  {
    var s := w + " " + rest;
    if w == [] {
      assert s[0] == ' ' && s[1..] == rest;
    } else {
      assert s[0] == w[0];
      assert s[1..] == w[1..] + " " + rest;
      SplitWordThenSpace(w[1..], rest);
      assert [w[0]] + w[1..] == w;
    }
  }

  /** Splitting a space-joined list of space-free words gives the words back. */
  lemma {:induction false} SplitJoin(words: seq<string>)
    requires |words| > 0
    requires forall k :: 0 <= k < |words| ==> NoSpace(words[k])
    ensures Split(Join(words)) == words
  {
    if |words| == 1 {
      SplitWord(words[0]);
    } else {
      SplitWordThenSpace(words[0], Join(words[1..]));
      SplitJoin(words[1..]);
      assert [words[0]] + words[1..] == words;
    }
  }
}
