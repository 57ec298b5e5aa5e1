/**
 String helpers the wire format needs: replacing every occurrence of one
 character (the library call that rewrites embedded newlines), splitting a
 payload into lines and joining them back, and the decimal rendering of a
 positive integer.
 */
module Text {

  /** Every occurrence of `from` in `s` replaced by `to`, left to right. */
  function ReplaceAll(s: string, from: char, to: string): (r: string)
    ensures from !in s ==> r == s
    decreases |s|
  {
    if |s| == 0 then ""
    else (if s[0] == from then to else [s[0]]) + ReplaceAll(s[1..], from, to)
  }

  /** The pieces of `s` between occurrences of `sep`; there is always at least one. */
  function Split(s: string, sep: char): (r: seq<string>)
    ensures |r| >= 1
    ensures forall i :: 0 <= i < |r| ==> sep !in r[i]
    decreases |s|
  {
    if |s| == 0 then [""]
    else
      var rest := Split(s[1..], sep);
      if s[0] == sep then [""] + rest
      else [[s[0]] + rest[0]] + rest[1..]
  }

  /** There is one piece more than there are separators. */
  lemma {:induction false} SplitCount(s: string, sep: char)
    ensures |Split(s, sep)| == multiset(s)[sep] + 1
    decreases |s|
  {
    if |s| > 0 {
      SplitCount(s[1..], sep);
      assert s == [s[0]] + s[1..];
    }
  }

  /** The pieces separated by `sep`. */
  function Join(parts: seq<string>, sep: string): string
    decreases |parts|
  {
    if |parts| == 0 then ""
    else if |parts| == 1 then parts[0]
    else parts[0] + sep + Join(parts[1..], sep)
  }

  /** Replacing a character is joining the pieces it separates with the replacement. */
  lemma {:induction false} ReplaceIsJoinOfSplit(s: string, from: char, to: string)
    ensures ReplaceAll(s, from, to) == Join(Split(s, from), to)
    decreases |s|
  {
    if |s| > 0 {
      ReplaceIsJoinOfSplit(s[1..], from, to);
      var rest := Split(s[1..], from);
      assert ReplaceAll(s, from, to) == (if s[0] == from then to else [s[0]]) + Join(rest, to);
      if s[0] == from {
        SplitAtSeparator(s, from, to);
      } else {
        SplitAtOther(s, from, to);
      }
    }
  }

  /** Unfolding step of ReplaceIsJoinOfSplit when `s` starts with the separator. */
  lemma SplitAtSeparator(s: string, sep: char, to: string)
    requires |s| > 0 && s[0] == sep
    ensures Join(Split(s, sep), to) == to + Join(Split(s[1..], sep), to)
  {
    var rest := Split(s[1..], sep);
    assert Split(s, sep) == [""] + rest;
    assert ([""] + rest)[1..] == rest;
  }

  /** Unfolding step of ReplaceIsJoinOfSplit when `s` starts with another character. */
  lemma SplitAtOther(s: string, sep: char, to: string)
    requires |s| > 0 && s[0] != sep
    ensures Join(Split(s, sep), to) == [s[0]] + Join(Split(s[1..], sep), to)
  {
    var rest := Split(s[1..], sep);
    var parts := [[s[0]] + rest[0]] + rest[1..];
    assert Split(s, sep) == parts;
    if |rest| > 1 {
      assert parts[1..] == rest[1..];
      assert Join(rest, to) == rest[0] + to + Join(rest[1..], to);
    }
  }

  /** Replacing a character by itself gives the string back. */
  lemma {:induction false} ReplaceByItself(s: string, c: char)
    ensures ReplaceAll(s, c, [c]) == s
    decreases |s|
  {
    if |s| > 0 {
      ReplaceByItself(s[1..], c);
      assert s == [s[0]] + s[1..];
    }
  }

  /** Joining the pieces with the separator they were split on restores the string. */
  lemma JoinSplit(s: string, sep: char)
    ensures Join(Split(s, sep), [sep]) == s
  {
    ReplaceIsJoinOfSplit(s, sep, [sep]);
    ReplaceByItself(s, sep);
  }

  /** A piece, its separator and the rest split into the piece followed by the rest's pieces. */
  lemma {:induction false} SplitAfterPiece(a: string, sep: char, b: string)
    requires sep !in a
    ensures Split(a + [sep] + b, sep) == [a] + Split(b, sep)
    decreases |a|
  {
    var s := a + [sep] + b;
    if |a| == 0 {
      assert s == [sep] + b;
      assert s[1..] == b;
    } else {
      assert a[1..] + [sep] + b == s[1..];
      SplitAfterPiece(a[1..], sep, b);
      assert s[0] == a[0];
      assert [a[0]] + a[1..] == a;
    }
  }

  /** A string without the separator is a single piece. */
  lemma {:induction false} SplitWithoutSeparator(s: string, sep: char)
    requires sep !in s
    ensures Split(s, sep) == [s]
    decreases |s|
  {
    if |s| > 0 {
      SplitWithoutSeparator(s[1..], sep);
      assert [s[0]] + s[1..] == s;
    }
  }

  /** Splitting what was joined from separator-free pieces gives back the pieces. */
  lemma {:induction false} SplitJoin(parts: seq<string>, sep: char)
    requires |parts| >= 1
    requires forall i :: 0 <= i < |parts| ==> sep !in parts[i]
    ensures Split(Join(parts, [sep]), sep) == parts
    decreases |parts|
  {
    if |parts| == 1 {
      SplitWithoutSeparator(parts[0], sep);
    } else {
      SplitJoin(parts[1..], sep);
      SplitAfterPiece(parts[0], sep, Join(parts[1..], [sep]));
      assert [parts[0]] + parts[1..] == parts;
    }
  }

  /** The character for a decimal digit. */
  function Digit(d: nat): (c: char)
    requires d < 10
    ensures '0' <= c <= '9'
    ensures c as int - '0' as int == d
  {
    ('0' as int + d) as char
  }

  /** Whether every character of `s` is a decimal digit. */
  predicate AllDigits(s: string)
  {
    forall i :: 0 <= i < |s| ==> '0' <= s[i] <= '9'
  }

  /** The decimal digits of `n`, most significant first, without leading zeros. */
  function Decimal(n: nat): (r: string)
    ensures |r| >= 1 && AllDigits(r)
    ensures n > 0 ==> r[0] != '0'
    decreases n
  {
    if n < 10 then [Digit(n)] else Decimal(n / 10) + [Digit(n % 10)]
  }

  /** The number a string of decimal digits denotes. */
  function ParseDecimal(s: string): nat
    requires AllDigits(s)
    decreases |s|
  {
    if |s| == 0 then 0
    else ParseDecimal(s[..|s| - 1]) * 10 + (s[|s| - 1] as int - '0' as int)
  }

  /** Reading back the decimal rendering gives the number. */
  lemma {:induction false} DecimalRoundTrip(n: nat)
    ensures ParseDecimal(Decimal(n)) == n
    decreases n
  {
    var r := Decimal(n);
    if n >= 10 {
      DecimalRoundTrip(n / 10);
      assert r[..|r| - 1] == Decimal(n / 10);
    } else {
      assert r[..0] == "";
    }
  }
}
