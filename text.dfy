/**
 * The .NET string and integer operations the scheduler relies on, written
 * out so that their effect on names, command lines and keyword rows can be
 * reasoned about: String.Split(char), String.Join, String.Replace,
 * Int32.ToString and C#'s integer division, which truncates toward zero.
 */
module Text {

  // ---------------------------------------------------------------- Split / Join

  /** String.Split(sep): the pieces between separators, in order. A string
      with k separators yields k + 1 pieces, so the result is never empty. */
  function Split(s: string, sep: char): (parts: seq<string>)
    ensures |parts| >= 1
    ensures forall i :: 0 <= i < |parts| ==> sep !in parts[i]
    decreases |s|
  {
    if s == [] then [""]
    else
      var rest := Split(s[1..], sep);
      if s[0] == sep then [""] + rest
      else [[s[0]] + rest[0]] + rest[1..]
  }

  /** String.Join(sep, parts). */
  function Join(parts: seq<string>, sep: char): string
  {
    if parts == [] then ""
    else if |parts| == 1 then parts[0]
    else parts[0] + [sep] + Join(parts[1..], sep)
  }

  /** Joining the pieces of a split gives back the original string. */
  lemma {:induction false} JoinSplit(s: string, sep: char)
    ensures Join(Split(s, sep), sep) == s
    decreases |s|
  {
    if s != [] {
      JoinSplit(s[1..], sep);
      var rest := Split(s[1..], sep);
      if s[0] == sep {
        assert ([""] + rest)[1..] == rest;
      } else if |rest| > 1 {
        assert ([[s[0]] + rest[0]] + rest[1..])[1..] == rest[1..];
        assert Join(rest, sep) == rest[0] + [sep] + Join(rest[1..], sep);
      }
      assert s == [s[0]] + s[1..];
    }
  }

  /** A string without the separator is a single piece. */
  lemma {:induction false} SplitWithoutSeparator(a: string, sep: char)
    requires sep !in a
    ensures Split(a, sep) == [a]
    decreases |a|
  {
    if a != [] {
      SplitWithoutSeparator(a[1..], sep);
      assert a == [a[0]] + a[1..];
    }
  }

  /** A separator after a separator-free prefix ends the first piece. */
  lemma {:induction false} SplitAtFirstSeparator(a: string, b: string, sep: char)
    requires sep !in a
    ensures Split(a + [sep] + b, sep) == [a] + Split(b, sep)
    decreases |a|
  {
    var s := a + [sep] + b;
    if a == [] {
      assert s[1..] == b;
    } else {
      assert s[1..] == a[1..] + [sep] + b;
      SplitAtFirstSeparator(a[1..], b, sep);
      assert a == [a[0]] + a[1..];
    }
  }

  /** Splitting a join of separator-free pieces recovers the pieces. */
  lemma {:induction false} SplitJoin(parts: seq<string>, sep: char)
    requires |parts| >= 1
    requires forall i :: 0 <= i < |parts| ==> sep !in parts[i]
    ensures Split(Join(parts, sep), sep) == parts
    decreases |parts|
  {
    if |parts| == 1 {
      SplitWithoutSeparator(parts[0], sep);
    } else {
      SplitJoin(parts[1..], sep);
      SplitAtFirstSeparator(parts[0], Join(parts[1..], sep), sep);
      assert parts == [parts[0]] + parts[1..];
    }
  }

  /** Appending one more piece adds a separator and the piece at the end. */
  lemma {:induction false} JoinAppend(parts: seq<string>, p: string, sep: char)
    requires |parts| >= 1
    ensures Join(parts + [p], sep) == Join(parts, sep) + [sep] + p
    decreases |parts|
  {
    if |parts| > 1 {
      JoinAppend(parts[1..], p, sep);
      assert (parts + [p])[1..] == parts[1..] + [p];
    }
  }

  // ---------------------------------------------------------------- Replace

  /** String.Replace(pattern, replacement): every occurrence of `pattern`,
      found scanning left to right without overlap, is replaced. .NET refuses
      an empty pattern, hence the precondition. */
  function ReplaceAll(s: string, pattern: string, replacement: string): string
    requires pattern != []
    decreases |s|
  {
    if |s| < |pattern| then s
    else if s[..|pattern|] == pattern then
      replacement + ReplaceAll(s[|pattern|..], pattern, replacement)
    else [s[0]] + ReplaceAll(s[1..], pattern, replacement)
  }

  /** Text that cannot start the pattern passes through unchanged. */
  lemma {:induction false} ReplaceSkipsPlain(x: string, y: string, pattern: string, replacement: string)
    requires pattern != []
    requires pattern[0] !in x
    ensures ReplaceAll(x + y, pattern, replacement) == x + ReplaceAll(y, pattern, replacement)
    decreases |x|
  {
    if x == [] {
      assert x + y == y;
    } else {
      var s := x + y;
      assert s[0] == x[0];
      if |s| < |pattern| {
        assert ReplaceAll(y, pattern, replacement) == y;
      } else {
        assert s[..|pattern|][0] == x[0];
        assert s[1..] == x[1..] + y;
        ReplaceSkipsPlain(x[1..], y, pattern, replacement);
        assert x == [x[0]] + x[1..];
      }
    }
  }

  /** A string that never contains the pattern's first character is left as is. */
  lemma ReplaceLeavesPlain(x: string, pattern: string, replacement: string)
    requires pattern != []
    requires pattern[0] !in x
    ensures ReplaceAll(x, pattern, replacement) == x
  {
    ReplaceSkipsPlain(x, [], pattern, replacement);
    assert x + [] == x;
  }

  /** An occurrence at the head is replaced and the scan resumes after it. */
  lemma ReplaceAtHead(y: string, pattern: string, replacement: string)
    requires pattern != []
    ensures ReplaceAll(pattern + y, pattern, replacement)
         == replacement + ReplaceAll(y, pattern, replacement)
  {
    var s := pattern + y;
    assert s[..|pattern|] == pattern;
    assert s[|pattern|..] == y;
  }

  /** A different placeholder -- same opening character, a different
      character at some position `j` both share, no further opening
      character -- passes through unchanged. */
  lemma ReplaceSkipsOther(q: string, y: string, pattern: string, replacement: string, j: nat)
    requires |pattern| >= 2 && |q| >= 2
    requires q[0] == pattern[0]
    requires 1 <= j < |q| && j < |pattern| && q[j] != pattern[j]
    requires pattern[0] !in q[1..]
    ensures ReplaceAll(q + y, pattern, replacement) == q + ReplaceAll(y, pattern, replacement)
  {
    var s := q + y;
    assert s[1..] == q[1..] + y;
    ReplaceSkipsPlain(q[1..], y, pattern, replacement);
    if |s| < |pattern| {
      assert ReplaceAll(s, pattern, replacement) == s;
      assert ReplaceAll(y, pattern, replacement) == y;
    } else {
      assert s[..|pattern|] != pattern by {
        assert s[..|pattern|][j] == q[j];
      }
      assert ReplaceAll(s, pattern, replacement) == [q[0]] + ReplaceAll(s[1..], pattern, replacement);
      assert q == [q[0]] + q[1..];
    }
  }

  // ---------------------------------------------------------------- characters

  /** String.Replace(from, to) for single characters. */
  function ReplaceChar(s: string, from: char, to: char): (r: string)
    ensures |r| == |s|
    ensures forall i :: 0 <= i < |s| ==> r[i] == (if s[i] == from then to else s[i])
  {
    if s == [] then [] else [if s[0] == from then to else s[0]] + ReplaceChar(s[1..], from, to)
  }

  /** The characters of `s` that are not in `strip`, in their original order:
      what repeated String.Replace(c.ToString(), "") over `strip` leaves. */
  function StripChars(s: string, strip: seq<char>): (r: string)
    ensures |r| <= |s|
    ensures forall i :: 0 <= i < |r| ==> r[i] !in strip && r[i] in s
  {
    if s == [] then []
    else if s[0] in strip then StripChars(s[1..], strip)
    else [s[0]] + StripChars(s[1..], strip)
  }

  /** Nothing that is not stripped is lost: every other character occurs in
      the result exactly as often as in `s`, and a stripped one not at all. */
  lemma {:induction false} StripCharsCounts(s: string, strip: seq<char>, c: char)
    ensures multiset(StripChars(s, strip))[c] == if c in strip then 0 else multiset(s)[c]
    decreases |s|
  {
    if s != [] {
      StripCharsCounts(s[1..], strip, c);
      assert s == [s[0]] + s[1..];
    }
  }

  /** Stripping works character by character: the kept characters of a
      concatenation are those of each part, in order. */
  lemma {:induction false} StripCharsAppend(a: string, b: string, strip: seq<char>)
    ensures StripChars(a + b, strip) == StripChars(a, strip) + StripChars(b, strip)
    decreases |a|
  {
    if a != [] {
      assert (a + b)[1..] == a[1..] + b;
      StripCharsAppend(a[1..], b, strip);
    } else {
      assert a + b == b;
    }
  }

  /** One character is kept exactly when it is not stripped. */
  lemma StripCharsSingle(c: char, strip: seq<char>)
    ensures StripChars([c], strip) == if c in strip then [] else [c]
  {
    assert [c][1..] == [];
  }

  /** String.Replace(c.ToString(), "") removes every occurrence of `c`. */
  lemma {:induction false} ReplaceByEmptyStrips(s: string, c: char)
    ensures ReplaceAll(s, [c], "") == StripChars(s, [c])
    decreases |s|
  {
    if s != [] {
      ReplaceByEmptyStrips(s[1..], c);
      assert s[..1] == [s[0]];
    }
  }

  /** Removing no character leaves the string as it is. */
  lemma {:induction false} StripNothing(s: string)
    ensures StripChars(s, []) == s
    decreases |s|
  {
    if s != [] {
      StripNothing(s[1..]);
      assert s == [s[0]] + s[1..];
    }
  }

  /** One more String.Replace(c.ToString(), "") over the characters of
      `chars` removes one more of them. */
  lemma StripOneMore(s: string, chars: seq<char>, i: nat)
    requires i < |chars|
    ensures ReplaceAll(StripChars(s, chars[..i]), [chars[i]], "") == StripChars(s, chars[..i + 1])
  {
    ReplaceByEmptyStrips(StripChars(s, chars[..i]), chars[i]);
    StripCharsStep(s, chars[..i], chars[i]);
    assert chars[..i + 1] == chars[..i] + [chars[i]];
  }

  /** Removing the characters of `a` and then one more character `c` is
      the same as removing the characters of `a + [c]` at once. */
  lemma {:induction false} StripCharsStep(s: string, a: seq<char>, c: char)
    ensures StripChars(StripChars(s, a), [c]) == StripChars(s, a + [c])
    decreases |s|
  {
    if s != [] {
      StripCharsStep(s[1..], a, c);
      if s[0] !in a {
        var t := StripChars(s[1..], a);
        assert ([s[0]] + t)[1..] == t;
      }
    }
  }

  // ---------------------------------------------------------------- numbers

  function DigitChar(d: nat): char
    requires d < 10
  {
    (48 + d) as char
  }

  predicate IsDigits(s: string)
  {
    forall i :: 0 <= i < |s| ==> '0' <= s[i] <= '9'
  }

  /** Int32.ToString() on a non-negative number: its decimal digits. */
  function NatToDecimal(n: nat): (s: string)
    ensures |s| >= 1 && IsDigits(s)
  {
    if n < 10 then [DigitChar(n)] else NatToDecimal(n / 10) + [DigitChar(n % 10)]
  }

  /** The number a string of decimal digits denotes. */
  function DecimalValue(s: string): nat
    requires IsDigits(s)
  {
    if s == [] then 0
    else DecimalValue(s[..|s| - 1]) * 10 + (s[|s| - 1] as int - 48)
  }

  /** Reading the digits back gives the number: ToString is injective. */
  lemma {:induction false} DecimalRoundTrip(n: nat)
    ensures DecimalValue(NatToDecimal(n)) == n
  {
    if n >= 10 {
      DecimalRoundTrip(n / 10);
      var s := NatToDecimal(n);
      assert s[..|s| - 1] == NatToDecimal(n / 10);
    }
  }

  // ---------------------------------------------------------------- C# integer division

  /** C#'s `a / b` for a positive divisor: the quotient truncated toward zero
      (Dafny's own `/` rounds toward negative infinity for negative `a`). */
  function TruncDiv(a: int, b: int): (q: int)
    requires b > 0
    ensures a >= 0 ==> q >= 0
    ensures a <= 0 ==> q <= 0
    ensures 0 <= a < b ==> q == 0
    ensures a >= 0 ==> q * b <= a < q * b + b
    ensures a < 0 ==> q * b - b < a <= q * b
  {
    if a >= 0 then
      DivBounds(a, b);
      a / b
    else
      DivBounds(-a, b);
      NegateTimes((-a) / b, b);
      -((-a) / b)
  }

  /** Euclidean division of a non-negative number brackets it between two
      consecutive multiples of the divisor. */
  lemma DivBounds(x: int, b: int)
    requires x >= 0 && b > 0
    ensures (x / b) * b <= x < (x / b) * b + b
  {
    assert x == (x / b) * b + x % b;
  }

  lemma NegateTimes(p: int, b: int)
    ensures (-p) * b == -(p * b)
  {
  }

  /** C#'s `a % b` for a positive divisor: the remainder takes the sign of `a`. */
  function TruncRem(a: int, b: int): (r: int)
    requires b > 0
    ensures -b < r < b
    ensures a >= 0 ==> r >= 0
    ensures a <= 0 ==> r <= 0
  {
    a - TruncDiv(a, b) * b
  }
}
