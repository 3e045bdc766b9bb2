/** The few Python string primitives the converter relies on: whitespace
    stripping, lower-casing, substring search, joining, splitting and the
    decimal rendering of integers. */
module Strings {

  /** The characters Python's `str.isspace()` accepts; `str.strip()` without
      arguments removes exactly these from both ends. */
  predicate IsSpace(c: char) {
    || c == ' '
    || ('\t' <= c <= '\r')
    || ('\U{1C}' <= c <= '\U{1F}')
    || c == '\U{85}' || c == '\U{A0}' || c == '\U{1680}'
    || ('\U{2000}' <= c <= '\U{200A}')
    || c == '\U{2028}' || c == '\U{2029}' || c == '\U{202F}' || c == '\U{205F}'
    || c == '\U{3000}'
  }

  /** Every character of `s` is whitespace (the empty string included). */
  predicate AllSpace(s: string) {
    forall i :: 0 <= i < |s| ==> IsSpace(s[i])
  }

  lemma AllSpaceConcat(a: string, b: string)
    ensures AllSpace(a + b) <==> AllSpace(a) && AllSpace(b)
  {
    if AllSpace(a) && AllSpace(b) {
      forall i | 0 <= i < |a + b| ensures IsSpace((a + b)[i]) {
        if i >= |a| { assert (a + b)[i] == b[i - |a|]; }
      }
    }
    if AllSpace(a + b) {
      forall i | 0 <= i < |a| ensures IsSpace(a[i]) {
        assert (a + b)[i] == a[i];
      }
      forall i | 0 <= i < |b| ensures IsSpace(b[i]) {
        assert (a + b)[|a| + i] == b[i];
      }
    }
  }

  /** The number of whitespace characters `s` starts with. */
  function LeadingSpaces(s: string): (n: nat)
    ensures n <= |s|
  {
    if s == [] || !IsSpace(s[0]) then 0 else 1 + LeadingSpaces(s[1..])
  }

  /** The number of whitespace characters `s` ends with. */
  function TrailingSpaces(s: string): (n: nat)
    ensures n <= |s|
  {
    if s == [] || !IsSpace(s[|s| - 1]) then 0 else 1 + TrailingSpaces(s[..|s| - 1])
  }

  lemma {:induction false} LeadingSpacesSpec(s: string)
    ensures AllSpace(s[..LeadingSpaces(s)])
    ensures LeadingSpaces(s) == |s| || !IsSpace(s[LeadingSpaces(s)])
  {
    if s != [] && IsSpace(s[0]) {
      LeadingSpacesSpec(s[1..]);
      var n := LeadingSpaces(s[1..]);
      assert s[..n + 1] == [s[0]] + s[1..][..n];
    }
  }

  lemma {:induction false} TrailingSpacesSpec(s: string)
    ensures AllSpace(s[|s| - TrailingSpaces(s)..])
    ensures TrailingSpaces(s) == |s| || !IsSpace(s[|s| - 1 - TrailingSpaces(s)])
  {
    if s != [] && IsSpace(s[|s| - 1]) {
      var t := s[..|s| - 1];
      TrailingSpacesSpec(t);
      var n := TrailingSpaces(t);
      assert s[|s| - (n + 1)..] == t[|t| - n..] + [s[|s| - 1]];
    }
  }

  /** `s.strip()`: `s` with leading and trailing whitespace removed. */
  function Strip(s: string): string {
    var a := LeadingSpaces(s);
    s[a..|s| - TrailingSpaces(s[a..])]
  }

  /** The stripped string is the slice of `s` that starts at `LeadingSpaces(s)`;
      everything before and after it is whitespace, it neither starts nor ends
      with whitespace, and it is empty exactly when `s` is all whitespace. */
  lemma StripSpec(s: string)
    ensures LeadingSpaces(s) + |Strip(s)| <= |s|
    ensures Strip(s) == s[LeadingSpaces(s)..LeadingSpaces(s) + |Strip(s)|]
    ensures AllSpace(s[..LeadingSpaces(s)]) && AllSpace(s[LeadingSpaces(s) + |Strip(s)|..])
    ensures Strip(s) == [] || (!IsSpace(Strip(s)[0]) && !IsSpace(Strip(s)[|Strip(s)| - 1]))
    ensures Strip(s) == [] <==> AllSpace(s)
  {
    StripShape(s);
    StripBlank(s);
  }

  lemma StripShape(s: string)
    ensures LeadingSpaces(s) + |Strip(s)| <= |s|
    ensures Strip(s) == s[LeadingSpaces(s)..LeadingSpaces(s) + |Strip(s)|]
    ensures AllSpace(s[..LeadingSpaces(s)]) && AllSpace(s[LeadingSpaces(s) + |Strip(s)|..])
    ensures Strip(s) == [] || (!IsSpace(Strip(s)[0]) && !IsSpace(Strip(s)[|Strip(s)| - 1]))
  {
    var a := LeadingSpaces(s);
    var l := s[a..];
    var b := TrailingSpaces(l);
    var r := Strip(s);
    assert r == s[a..|s| - b] && |r| == |l| - b;
    LeadingSpacesSpec(s);
    TrailingSpacesSpec(l);
    assert r == l[..|l| - b];
    assert s[a + |r|..] == l[|l| - b..];
    if r != [] {
      assert r[0] == s[a];
      assert r[|r| - 1] == l[|l| - 1 - b];
    }
  }

  lemma StripBlank(s: string)
    ensures Strip(s) == [] <==> AllSpace(s)
  {
    StripShape(s);
    var a := LeadingSpaces(s);
    var r := Strip(s);
    if r == [] {
      assert s == s[..a] + s[a + |r|..];
      AllSpaceConcat(s[..a], s[a + |r|..]);
    } else {
      assert s[a] == r[0];
    }
  }

  /** A string that neither starts nor ends with whitespace is its own strip. */
  lemma StripUnchanged(s: string)
    requires s == [] || (!IsSpace(s[0]) && !IsSpace(s[|s| - 1]))
    ensures Strip(s) == s
  {
    if s != [] {
      assert s[0..] == s;
    }
  }

  /** Python's `str.lower()` restricted to ASCII letters. */
  function LowerChar(c: char): char {
    if 'A' <= c <= 'Z' then (c as int + 32) as char else c
  }

  function Lower(s: string): (r: string)
    ensures |r| == |s|
    ensures forall i :: 0 <= i < |s| ==> r[i] == LowerChar(s[i])
  {
    seq(|s|, i requires 0 <= i < |s| => LowerChar(s[i]))
  }

  /** `s.startswith(p)`. */
  predicate StartsWith(s: string, p: string) {
    |p| <= |s| && s[..|p|] == p
  }

  /** Python's `sub in s` on strings: `sub` starts at some position of `s`. */
  predicate Contains(s: string, sub: string)
    decreases |s|
  {
    StartsWith(s, sub) || (s != [] && Contains(s[1..], sub))
  }

  /** `sep.join(parts)`. */
  function Join(parts: seq<string>, sep: string): string {
    if |parts| == 0 then ""
    else if |parts| == 1 then parts[0]
    else parts[0] + sep + Join(parts[1..], sep)
  }

  /** Every part followed by `sep`: a block of newline-terminated lines. */
  function Terminated(parts: seq<string>, sep: string): string {
    if parts == [] then "" else parts[0] + sep + Terminated(parts[1..], sep)
  }

  /** Concatenation of a sequence of strings. */
  function Concat(parts: seq<string>): string {
    if parts == [] then "" else parts[0] + Concat(parts[1..])
  }

  /** Concatenating one more part appends it at the end. */
  lemma {:induction false} ConcatAppend(parts: seq<string>, x: string)
    ensures Concat(parts + [x]) == Concat(parts) + x
  {
    if parts != [] {
      assert (parts + [x])[1..] == parts[1..] + [x];
      ConcatAppend(parts[1..], x);
    }
  }

  /** Joining with an empty last part terminates every other part. */
  lemma {:induction false} JoinWithEmptyLast(parts: seq<string>, sep: string)
    ensures Join(parts + [""], sep) == Terminated(parts, sep)
  {
    if parts != [] {
      assert (parts + [""])[1..] == parts[1..] + [""];
      JoinWithEmptyLast(parts[1..], sep);
    }
  }

  /** Position of the first occurrence of `c` in `s` (`s.index(c)`). */
  function IndexOf(s: string, c: char): (r: nat)
    requires c in s
    ensures r < |s| && s[r] == c && c !in s[..r]
  {
    if s[0] == c then 0
    else
      var r := 1 + IndexOf(s[1..], c);
      assert s[..r] == [s[0]] + s[1..][..r - 1];
      r
  }

  lemma IndexOfAfterPrefix(p: string, c: char, rest: string)
    requires c !in p
    ensures c in p + [c] + rest && IndexOf(p + [c] + rest, c) == |p|
  {
    var s := p + [c] + rest;
    assert s[|p|] == c;
    if p != [] {
      assert s[1..] == p[1..] + [c] + rest;
      IndexOfAfterPrefix(p[1..], c, rest);
    }
  }

  /** `s.split(d)` for a one-character separator `d`. */
  function Split(s: string, d: char): (r: seq<string>)
    ensures |r| >= 1
    decreases |s|
  {
    if d !in s then [s]
    else
      var i := IndexOf(s, d);
      [s[..i]] + Split(s[i + 1..], d)
  }

  /** Splitting a joined list of separator-free parts gives the parts back. */
  lemma {:induction false} SplitJoin(parts: seq<string>, d: char)
    requires |parts| >= 1
    requires forall k :: 0 <= k < |parts| ==> d !in parts[k]
    ensures Split(Join(parts, [d]), d) == parts
  {
    if |parts| > 1 {
      var p, rest := parts[0], Join(parts[1..], [d]);
      var s := p + [d] + rest;
      assert Join(parts, [d]) == s;
      IndexOfAfterPrefix(p, d, rest);
      assert s[|p|] == d;
      assert s[..|p|] == p;
      assert s[|p| + 1..] == rest;
      assert Split(s, d) == [p] + Split(rest, d);
      SplitJoin(parts[1..], d);
      assert parts == [p] + parts[1..];
    }
  }

  /** The decimal digit character for `d < 10`. */
  function DigitChar(d: nat): (c: char)
    requires d < 10
    ensures '0' <= c <= '9'
  {
    ('0' as int + d) as char
  }

  /** Python's `str(n)` for a non-negative integer. */
  function NatToString(n: nat): (r: string)
    ensures |r| >= 1
    ensures forall i :: 0 <= i < |r| ==> '0' <= r[i] <= '9'
  {
    if n < 10 then [DigitChar(n)] else NatToString(n / 10) + [DigitChar(n % 10)]
  }

  /** Reads back a string of decimal digits. */
  function ParseNat(s: string): nat
    requires forall i :: 0 <= i < |s| ==> '0' <= s[i] <= '9'
  {
    if s == [] then 0 else ParseNat(s[..|s| - 1]) * 10 + (s[|s| - 1] as int - '0' as int)
  }

  /** The decimal rendering of a natural number reads back as that number, so
      distinct numbers render differently. */
  lemma {:induction false} ParseNatToString(n: nat)
    ensures ParseNat(NatToString(n)) == n
  {
    if n >= 10 {
      var s := NatToString(n);
      assert s[..|s| - 1] == NatToString(n / 10);
      ParseNatToString(n / 10);
    }
  }

  /** Python's `str(i)` for any integer. */
  function IntToString(i: int): (r: string)
    ensures i < 0 <==> (|r| > 0 && r[0] == '-')
  {
    if i < 0 then "-" + NatToString(-i) else NatToString(i)
  }

  /** `c * n` in Python: `n` copies of one character. */
  function Repeat(c: char, n: nat): (r: string)
    ensures |r| == n && forall i :: 0 <= i < n ==> r[i] == c
  {
    seq(n, _ => c)
  }

  /** `s.count(c)` for one character. */
  function Count(s: string, c: char): nat {
    if s == [] then 0 else (if s[0] == c then 1 else 0) + Count(s[1..], c)
  }

  lemma {:induction false} CountConcat(a: string, b: string, c: char)
    ensures Count(a + b, c) == Count(a, c) + Count(b, c)
  {
    if a == [] {
      assert a + b == b;
    } else {
      assert (a + b)[0] == a[0];
      assert (a + b)[1..] == a[1..] + b;
      CountConcat(a[1..], b, c);
    }
  }

  lemma {:induction false} CountAbsent(s: string, c: char)
    requires c !in s
    ensures Count(s, c) == 0
  {
    if s != [] {
      assert forall x :: x in s[1..] ==> x in s;
      CountAbsent(s[1..], c);
    }
  }

  /** Joining `n >= 1` parts free of `c` puts `n - 1` copies of the separator's
      count of `c` into the result. */
  lemma {:induction false} CountJoin(parts: seq<string>, sep: string, c: char)
    requires |parts| >= 1
    requires forall k :: 0 <= k < |parts| ==> c !in parts[k]
    ensures Count(Join(parts, sep), c) == (|parts| - 1) * Count(sep, c)
  {
    CountAbsent(parts[0], c);
    if |parts| > 1 {
      CountJoin(parts[1..], sep, c);
      CountConcat(parts[0], sep, c);
      CountConcat(parts[0] + sep, Join(parts[1..], sep), c);
    }
  }

  /** A character absent from every part and from the separator is absent
      from their join. */
  lemma {:induction false} JoinAbsent(parts: seq<string>, sep: string, c: char)
    requires c !in sep
    requires forall k :: 0 <= k < |parts| ==> c !in parts[k]
    ensures c !in Join(parts, sep)
  {
    if |parts| > 1 {
      JoinAbsent(parts[1..], sep, c);
    }
  }

  /** Stripping never introduces a character. */
  lemma StripAbsent(s: string, c: char)
    requires c !in s
    ensures c !in Strip(s)
  {
    var a := LeadingSpaces(s);
    var r := Strip(s);
    StripSpec(s);
    forall i | 0 <= i < |r| ensures r[i] != c {
      assert r[i] == s[a + i];
    }
  }
}
