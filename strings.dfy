/** The string operations of Java and Python that the modelled code relies on:
    prefix and substring tests, decimal rendering of integers, splitting on a
    single separator character, joining, Java's `String.trim` and ASCII
    lower-casing. */
module Strings {
  import opened Wrappers

  /** `s.startsWith(prefix)` in Java, `s.startswith(prefix)` in Python. */
  predicate StartsWith(s: string, prefix: string) {
    |prefix| <= |s| && s[..|prefix|] == prefix
  }

  /** `s.contains(sub)` in Java, `sub in s` in Python. */
  predicate Contains(s: string, sub: string)
    decreases |s|
  {
    StartsWith(s, sub) || (s != [] && Contains(s[1..], sub))
  }

  /** An occurrence of `sub` at any position makes `Contains` true. */
  lemma {:induction false} ContainsAt(s: string, sub: string, i: nat)
    requires i + |sub| <= |s| && s[i..i + |sub|] == sub
    ensures Contains(s, sub)
  {
    if i > 0 {
      assert s[1..][i - 1..i - 1 + |sub|] == s[i..i + |sub|];
      ContainsAt(s[1..], sub, i - 1);
    }
  }

  /** A string that `sub` occurs in is at least as long as `sub`. */
  lemma {:induction false} ContainsLength(s: string, sub: string)
    requires Contains(s, sub)
    ensures |sub| <= |s|
  {
    if !StartsWith(s, sub) {
      ContainsLength(s[1..], sub);
    }
  }

  /** `sub` occurs in `s` starting at index `i`. */
  predicate OccursAt(s: string, sub: string, i: nat) {
    i + |sub| <= |s| && s[i..i + |sub|] == sub
  }

  /** `Contains` holds only because of an occurrence at some position. */
  lemma {:induction false} ContainsWitness(s: string, sub: string)
    requires Contains(s, sub)
    ensures exists i: nat :: OccursAt(s, sub, i)
  {
    if StartsWith(s, sub) {
      assert OccursAt(s, sub, 0);
    } else {
      ContainsWitness(s[1..], sub);
      var i: nat :| OccursAt(s[1..], sub, i);
      assert s[i + 1..i + 1 + |sub|] == s[1..][i..i + |sub|];
      assert OccursAt(s, sub, i + 1);
    }
  }

  /** A string holding `sub` holds its first character. */
  lemma ContainsFirstChar(s: string, sub: string)
    requires sub != [] && Contains(s, sub)
    ensures sub[0] in s
  {
    ContainsWitness(s, sub);
    var i: nat :| OccursAt(s, sub, i);
    assert s[i] == s[i..i + |sub|][0];
  }

  /** How Java's string concatenation renders a possibly-null string. */
  function NullableText(s: Option<string>): string
  {
    s.GetOr("null")
  }

  predicate IsDigit(c: char) {
    '0' <= c <= '9'
  }

  predicate AllDigits(s: string) {
    forall i | 0 <= i < |s| :: IsDigit(s[i])
  }

  function DigitChar(d: nat): (c: char)
    requires d < 10
    ensures IsDigit(c) && c as int - '0' as int == d
  {
    (48 + d) as char
  }

  /** Decimal digits of a natural number, most significant first, no leading zeros. */
  function NatToString(n: nat): (s: string)
    ensures s != [] && AllDigits(s)
    ensures |s| > 1 ==> s[0] != '0'
    decreases n
  {
    if n < 10 then [DigitChar(n)] else NatToString(n / 10) + [DigitChar(n % 10)]
  }

  /** The number a string of decimal digits denotes. */
  function DigitsValue(s: string): nat
    requires AllDigits(s)
  {
    if s == [] then 0 else 10 * DigitsValue(s[..|s| - 1]) + (s[|s| - 1] as int - '0' as int)
  }

  /** Reading the digits back gives the number that was rendered. */
  lemma {:induction false} NatToStringRoundTrip(n: nat)
    ensures DigitsValue(NatToString(n)) == n
  {
    var s := NatToString(n);
    if n >= 10 {
      NatToStringRoundTrip(n / 10);
      assert s[..|s| - 1] == NatToString(n / 10);
    }
  }

  /** Java's `Integer.toString`/`Long.toString` and Python's `str` on an int:
      a minus sign for negative values, then the decimal digits. */
  function IntToString(i: int): (s: string)
    ensures s != []
    ensures s[0] == '-' <==> i < 0
  {
    if i < 0 then "-" + NatToString(-i) else NatToString(i)
  }

  /** After the optional minus sign come the digits of the magnitude. */
  lemma IntToStringDigits(i: int)
    ensures var s := IntToString(i);
      && (i < 0 ==> AllDigits(s[1..]) && DigitsValue(s[1..]) == -i)
      && (i >= 0 ==> AllDigits(s) && DigitsValue(s) == i)
  {
    if i < 0 {
      NatToStringRoundTrip(-i);
      assert IntToString(i)[1..] == NatToString(-i);
    } else {
      NatToStringRoundTrip(i);
    }
  }

  /** Different integers never render to the same text. */
  lemma IntToStringInjective(a: int, b: int)
    requires IntToString(a) == IntToString(b)
    ensures a == b
  {
    IntToStringDigits(a);
    IntToStringDigits(b);
  }

  /** Number of occurrences of `c` in `s` (Python's `s.count(c)` for a one-character string). */
  function CountChar(s: string, c: char): (n: nat)
    ensures n <= |s|
  {
    if s == [] then 0 else (if s[0] == c then 1 else 0) + CountChar(s[1..], c)
  }

  /** Splits `s` at every occurrence of `c`, keeping empty pieces (Python's
      `s.split(c)`; Java's `split` before it drops trailing empty pieces). */
  function SplitOn(s: string, c: char): (parts: seq<string>)
    ensures |parts| >= 1
    ensures forall i | 0 <= i < |parts| :: c !in parts[i]
    decreases |s|
  {
    if s == [] then [""]
    else
      var rest := SplitOn(s[1..], c);
      if s[0] == c then [""] + rest
      else [[s[0]] + rest[0]] + rest[1..]
  }

  /** The pieces joined with `sep` between them (Python's `sep.join(parts)`). */
  function JoinWith(parts: seq<string>, sep: string): string
  {
    if |parts| == 0 then ""
    else if |parts| == 1 then parts[0]
    else parts[0] + sep + JoinWith(parts[1..], sep)
  }

  /** Joined text starts with the first piece. */
  lemma {:induction false} JoinWithStartsWithFirst(parts: seq<string>, sep: string)
    requires |parts| >= 1
    ensures StartsWith(JoinWith(parts, sep), parts[0])
  {
    if |parts| > 1 {
      assert JoinWith(parts, sep)[..|parts[0]|] == parts[0];
    }
  }

  /** Joined text ends with the last piece's last character. */
  lemma {:induction false} JoinWithEndsWithLast(parts: seq<string>, sep: string)
    requires |parts| >= 1 && parts[|parts| - 1] != []
    ensures var r := JoinWith(parts, sep); r != [] && r[|r| - 1] == parts[|parts| - 1][|parts[|parts| - 1]| - 1]
  {
    if |parts| > 1 {
      JoinWithEndsWithLast(parts[1..], sep);
    }
  }

  /** Counting over a concatenation adds the counts. */
  lemma {:induction false} CountCharAppend(s: string, t: string, c: char)
    ensures CountChar(s + t, c) == CountChar(s, c) + CountChar(t, c)
  {
    if s != [] {
      assert (s + t)[1..] == s[1..] + t;
      CountCharAppend(s[1..], t, c);
    } else {
      assert s + t == t;
    }
  }

  /** The decimal rendering of an integer holds only digits and a leading minus. */
  lemma IntToStringChars(i: int)
    ensures forall k | 0 <= k < |IntToString(i)| :: IsDigit(IntToString(i)[k]) || (k == 0 && IntToString(i)[k] == '-')
  {
    var s := IntToString(i);
    IntToStringDigits(i);
    if i < 0 {
      forall k | 1 <= k < |s| ensures IsDigit(s[k]) {
        assert s[k] == s[1..][k - 1];
      }
    }
  }

  /** There is one more piece than there are separators. */
  lemma {:induction false} SplitOnCount(s: string, c: char)
    ensures |SplitOn(s, c)| == CountChar(s, c) + 1
  {
    if s != [] {
      SplitOnCount(s[1..], c);
    }
  }

  /** Joining the pieces with the separator gives back the original string. */
  lemma {:induction false} JoinSplitOn(s: string, c: char)
    ensures JoinWith(SplitOn(s, c), [c]) == s
  {
    if s != [] {
      var rest := SplitOn(s[1..], c);
      JoinSplitOn(s[1..], c);
      if s[0] == c {
        assert ([""] + rest)[1..] == rest;
      } else {
        var parts := [[s[0]] + rest[0]] + rest[1..];
        assert parts[1..] == rest[1..];
        if |rest| > 1 {
          assert JoinWith(rest, [c]) == rest[0] + [c] + JoinWith(rest[1..], [c]);
        }
      }
    }
  }

  /** Splitting a string whose prefix `w` holds no separator extends the first piece by `w`. */
  lemma {:induction false} SplitOnPrefix(w: string, t: string, c: char)
    requires c !in w
    ensures SplitOn(w + t, c) == [w + SplitOn(t, c)[0]] + SplitOn(t, c)[1..]
  {
    if w != [] {
      var rest := SplitOn(t, c);
      var inner := SplitOn(w[1..] + t, c);
      SplitOnPrefix(w[1..], t, c);
      assert (w + t)[1..] == w[1..] + t;
      assert (w + t)[0] == w[0] && w[0] != c;
      assert inner[0] == w[1..] + rest[0];
      assert inner[1..] == rest[1..];
      assert SplitOn(w + t, c) == [[w[0]] + inner[0]] + inner[1..];
      assert [w[0]] + (w[1..] + rest[0]) == w + rest[0];
    } else {
      var rest := SplitOn(t, c);
      assert w + t == t;
      assert w + rest[0] == rest[0];
      assert [rest[0]] + rest[1..] == rest;
    }
  }

  /** Splitting is the inverse of joining, for pieces that hold no separator. */
  lemma {:induction false} SplitOnJoin(parts: seq<string>, c: char)
    requires |parts| >= 1
    requires forall i | 0 <= i < |parts| :: c !in parts[i]
    ensures SplitOn(JoinWith(parts, [c]), c) == parts
  {
    if |parts| == 1 {
      SplitOnPrefix(parts[0], "", c);
      assert parts[0] + "" == parts[0];
    } else {
      var tail := JoinWith(parts[1..], [c]);
      SplitOnJoin(parts[1..], c);
      assert JoinWith(parts, [c]) == parts[0] + ([c] + tail);
      SplitOnPrefix(parts[0], [c] + tail, c);
      assert ([c] + tail)[1..] == tail;
      var rest := SplitOn([c] + tail, c);
      assert rest == [""] + parts[1..];
      assert rest[0] == "" && rest[1..] == parts[1..];
      assert parts[0] + "" == parts[0];
      assert [parts[0]] + parts[1..] == parts;
    }
  }

  /** Java's `trim` on the leading side: drops every leading character up to U+0020. */
  function TrimStart(s: string): (t: string)
    ensures |t| <= |s| && t == s[|s| - |t|..]
    ensures forall k | 0 <= k < |s| - |t| :: s[k] <= ' '
    ensures t == [] || t[0] > ' '
    decreases |s|
  {
    if s != [] && s[0] <= ' ' then TrimStart(s[1..]) else s
  }

  /** Java's `trim` on the trailing side: drops every trailing character up to U+0020. */
  function TrimEnd(s: string): (t: string)
    ensures |t| <= |s| && t == s[..|t|]
    ensures forall k | |t| <= k < |s| :: s[k] <= ' '
    ensures t == [] || t[|t| - 1] > ' '
    decreases |s|
  {
    if s != [] && s[|s| - 1] <= ' ' then TrimEnd(s[..|s| - 1]) else s
  }

  /** Java's `String.trim`. */
  function JavaTrim(s: string): (t: string)
    ensures t == [] || (t[0] > ' ' && t[|t| - 1] > ' ')
  {
    TrimEnd(TrimStart(s))
  }

  /** `t` is the piece of `s` starting at `i`, and every character of `s`
      before or after it is at most U+0020. */
  predicate TrimmedSlice(s: string, i: int, t: string) {
    && 0 <= i <= |s| - |t| && t == s[i..i + |t|]
    && (forall k | 0 <= k < i :: s[k] <= ' ')
    && (forall k | i + |t| <= k < |s| :: s[k] <= ' ')
  }

  /** Java's `trim` returns the piece of `s` that starts at its first
      character above U+0020 and ends at its last one: everything cut off on
      either side is at most U+0020. */
  lemma JavaTrimIsSlice(s: string)
    ensures TrimmedSlice(s, |s| - |TrimStart(s)|, JavaTrim(s))
  {
    CutBothEnds(s, TrimStart(s), JavaTrim(s));
  }

  /** A suffix `u` of `s` cut after at most U+0020, and a prefix `t` of `u`
      cut before at most U+0020, is a slice of `s` with only such characters
      around it. */
  lemma CutBothEnds(s: string, u: string, t: string)
    requires |u| <= |s| && u == s[|s| - |u|..]
    requires forall k | 0 <= k < |s| - |u| :: s[k] <= ' '
    requires |t| <= |u| && t == u[..|t|]
    requires forall k | |t| <= k < |u| :: u[k] <= ' '
    ensures TrimmedSlice(s, |s| - |u|, t)
  {
    var i := |s| - |u|;
    forall k | i + |t| <= k < |s| ensures s[k] <= ' ' {
      assert s[k] == u[k - i];
    }
  }

  /** Trimming adds no character: what is not in `s` is not in its trimmed form. */
  lemma JavaTrimKeepsOut(s: string, x: char)
    requires x !in s
    ensures x !in JavaTrim(s)
  {
    var u := TrimStart(s);
    var t := TrimEnd(u);
    forall k | 0 <= k < |t| ensures t[k] != x {
      assert t[k] == u[k] == s[|s| - |u| + k];
    }
  }

  /** Splitting adds no character: the pieces of a string without `x` do not hold `x`. */
  lemma {:induction false} SplitOnKeepsOut(s: string, c: char, x: char)
    requires x !in s
    ensures forall i | 0 <= i < |SplitOn(s, c)| :: x !in SplitOn(s, c)[i]
    decreases |s|
  {
    if s != [] {
      assert x !in s[1..];
      SplitOnKeepsOut(s[1..], c, x);
    }
  }

  /** Jakarta's `@NotBlank` check as Hibernate Validator performs it: nothing
      is left after trimming. Stated one character at a time;
      BlankIsTrimmedEmpty proves it is the trim test. */
  predicate IsBlank(s: string)
    decreases |s|
  {
    s == [] || (s[0] <= ' ' && IsBlank(s[1..]))
  }

  /** A string is blank exactly when none of its characters is above U+0020. */
  lemma {:induction false} BlankIffNoVisibleChar(s: string)
    ensures IsBlank(s) <==> forall k | 0 <= k < |s| :: s[k] <= ' '
    decreases |s|
  {
    if s != [] {
      BlankIffNoVisibleChar(s[1..]);
      assert forall k | 1 <= k < |s| :: s[k] == s[1..][k - 1];
    }
  }

  /** The blank test is Java's `trim().isEmpty()`. */
  lemma BlankIsTrimmedEmpty(s: string)
    ensures IsBlank(s) <==> JavaTrim(s) == []
  {
    BlankIffNoVisibleChar(s);
    JavaTrimIsSlice(s);
    var t := JavaTrim(s);
    if t != [] {
      assert t[0] == s[|s| - |TrimStart(s)|];
    }
  }

  function LowerAsciiChar(c: char): char {
    if 'A' <= c <= 'Z' then (c as int + 32) as char else c
  }

  /** Lower-cases the ASCII letters of `s` and keeps every other character. */
  function LowerAscii(s: string): (r: string)
    ensures |r| == |s|
    ensures forall i | 0 <= i < |s| :: r[i] == LowerAsciiChar(s[i])
  {
    seq(|s|, i requires 0 <= i < |s| => LowerAsciiChar(s[i]))
  }

  /** A string without upper-case ASCII letters is its own lower-case form. */
  lemma LowerAsciiFixed(s: string)
    requires forall i | 0 <= i < |s| :: !('A' <= s[i] <= 'Z')
    ensures LowerAscii(s) == s
  {
  }
}
