/**
 * String helpers shared by the formatters, the border and the table:
 * repetition, padding, splitting on a separator, decimal rendering,
 * and a model of Go's `strings.Builder`.
 *
 * Display width is the length of a string (one unit per character),
 * which is what the default width function of the table computes.
 */
module Text {

  function Max(a: int, b: int): (m: int)
    ensures m >= a && m >= b && (m == a || m == b)
  {
    if a >= b then a else b
  }

  /** `s` written `n` times; nothing when `n <= 0`, like a counted write loop. */
  function Repeat(s: string, n: int): (r: string)
    decreases if n <= 0 then 0 else n
  {
    if n <= 0 then [] else Repeat(s, n - 1) + s
  }

  lemma {:induction false} RepeatLength(s: string, n: nat)
    ensures |Repeat(s, n)| == n * |s|
  {
    if n > 0 {
      RepeatLength(s, n - 1);
    }
  }

  /** `n` blank characters (none when `n <= 0`). */
  function Spaces(n: int): (r: string)
    ensures |r| == Max(n, 0)
    ensures forall k :: 0 <= k < |r| ==> r[k] == ' '
    decreases if n <= 0 then 0 else n
  {
    if n <= 0 then [] else Spaces(n - 1) + " "
  }

  lemma SpacesAreRepeat(n: int)
    ensures Spaces(n) == Repeat(" ", n)
    decreases if n <= 0 then 0 else n
  {
    if n > 0 {
      SpacesAreRepeat(n - 1);
    }
  }

  predicate AllSpaces(s: string) {
    forall k :: 0 <= k < |s| ==> s[k] == ' '
  }

  lemma Assoc(a: string, b: string, c: string)
    ensures (a + b) + c == a + (b + c)
  {
  }

  /** The parts with `sep` between every two consecutive ones (nothing after the last). */
  function JoinWith(parts: seq<string>, sep: string): string {
    if |parts| == 0 then []
    else if |parts| == 1 then parts[0]
    else JoinWith(parts[..|parts| - 1], sep) + sep + parts[|parts| - 1]
  }

  /** A join of two or more parts, unfolded from the front. */
  lemma {:induction false} JoinWithFront(parts: seq<string>, sep: string)
    requires |parts| >= 2
    ensures JoinWith(parts, sep) == parts[0] + sep + JoinWith(parts[1..], sep)
  {
    var n := |parts|;
    if n == 2 {
      assert parts[..1] == [parts[0]];
      assert parts[1..] == [parts[1]];
    } else {
      var init := parts[..n - 1];
      JoinWithFront(init, sep);
      assert init[1..] == parts[1..][..n - 2];
      assert parts[1..][n - 2] == parts[n - 1];
    }
  }

  /** Total length of a sequence of strings. */
  function TotalLength(parts: seq<string>): nat {
    if parts == [] then 0 else TotalLength(parts[..|parts| - 1]) + |parts[|parts| - 1]|
  }

  /** A join is as long as its parts plus one separator between every two of them. */
  lemma {:induction false} JoinWithLength(parts: seq<string>, sep: string)
    requires |parts| >= 1
    ensures |JoinWith(parts, sep)| == TotalLength(parts) + (|parts| - 1) * |sep|
  {
    if |parts| > 1 {
      JoinWithLength(parts[..|parts| - 1], sep);
    }
  }

  /** Number of occurrences of `c` in `s`. */
  function Count(s: string, c: char): nat {
    if s == [] then 0 else (if s[0] == c then 1 else 0) + Count(s[1..], c)
  }

  /**
   * Go's `strings.Split(s, string(c))`: the maximal pieces of `s` between
   * occurrences of `c`; an empty `s` gives one empty piece.
   */
  function Split(s: string, c: char): (parts: seq<string>)
    ensures |parts| == Count(s, c) + 1
  {
    if s == [] then [[]]
    else
      var rest := Split(s[1..], c);
      if s[0] == c then [[]] + rest
      else [[s[0]] + rest[0]] + rest[1..]
  }

  /** Putting an empty part in front of a join adds one separator in front. */
  lemma JoinWithEmptyFront(rest: seq<string>, sep: string)
    requires |rest| >= 1
    ensures JoinWith([[]] + rest, sep) == sep + JoinWith(rest, sep)
  {
    var r := [[]] + rest;
    JoinWithFront(r, sep);
    assert r[1..] == rest;
  }

  /** Growing the first part of a join grows the join at the front. */
  lemma JoinWithGrowFront(ch: char, rest: seq<string>, sep: string)
    requires |rest| >= 1
    ensures JoinWith([[ch] + rest[0]] + rest[1..], sep) == [ch] + JoinWith(rest, sep)
  {
    var r := [[ch] + rest[0]] + rest[1..];
    if |rest| == 1 {
      assert r == [[ch] + rest[0]];
    } else {
      JoinWithFront(rest, sep);
      JoinWithFront(r, sep);
      assert r[1..] == rest[1..];
    }
  }

  /** Joining the pieces of a split with the separator gives the string back. */
  lemma {:induction false} SplitJoin(s: string, c: char)
    ensures JoinWith(Split(s, c), [c]) == s
  {
    if s != [] {
      var rest := Split(s[1..], c);
      SplitJoin(s[1..], c);
      assert s == [s[0]] + s[1..];
      if s[0] == c {
        JoinWithEmptyFront(rest, [c]);
      } else {
        JoinWithGrowFront(s[0], rest, [c]);
      }
    }
  }

  lemma SplitOne(s: string, c: char)
    requires |Split(s, c)| == 1
    ensures Split(s, c)[0] == s
  {
    SplitJoin(s, c);
  }

  /** No piece of a split contains the separator. */
  lemma {:induction false} SplitPieces(s: string, c: char)
    ensures forall k :: 0 <= k < |Split(s, c)| ==> c !in Split(s, c)[k]
  {
    if s != [] {
      SplitPieces(s[1..], c);
    }
  }

  lemma SplitTwo(s: string, c: char)
    requires |Split(s, c)| == 2
    ensures s == Split(s, c)[0] + [c] + Split(s, c)[1]
  {
    var p := Split(s, c);
    SplitJoin(s, c);
    JoinWithFront(p, [c]);
    assert p[1..] == [p[1]];
  }

  function DigitChar(d: nat): char
    requires d < 10
  {
    ('0' as int + d) as char
  }

  /** The number a string of decimal digits spells, most significant digit first. */
  function DigitsValue(s: string): int {
    if |s| == 0 then 0 else DigitsValue(s[..|s| - 1]) * 10 + (s[|s| - 1] as int - '0' as int)
  }

  /** Decimal rendering of a natural number, as Go's `%d` prints it. */
  function NatToString(n: nat): (r: string)
    ensures |r| >= 1
    ensures forall k :: 0 <= k < |r| ==> '0' <= r[k] <= '9'
    ensures DigitsValue(r) == n
    ensures |r| == 1 <==> n < 10
    ensures |r| > 1 ==> r[0] != '0'
  {
    if n < 10 then [DigitChar(n)]
    else
      var r := NatToString(n / 10) + [DigitChar(n % 10)];
      assert r[..|r| - 1] == NatToString(n / 10);
      r
  }

  /** Go's `strings.Builder`: a growing buffer of written text. */
  class Builder {
    var contents: string

    constructor ()
      ensures contents == []
    {
      contents := [];
    }

    method WriteString(s: string)
      modifies this
      ensures contents == old(contents) + s
    {
      contents := contents + s;
    }
  }
}
