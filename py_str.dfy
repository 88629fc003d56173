/** Python `str` operations the driver relies on, with CPython's semantics:
    `strip`, `startswith`, `find` of one character, slicing with negative
    indices, `split` on one character, `splitlines`, `isdigit`, `int` of a
    digit string and `str` of an integer. Characters are Unicode scalar values;
    digits are the ASCII digits. */
module PyStr {

  /** `str.isspace` for one character: the whitespace and separator characters CPython strips. */
  predicate IsSpace(c: char) {
    || c == ' '
    || ('\t' <= c <= '\r')
    || ('\U{1c}' <= c <= '\U{1f}')
    || c == '\U{85}' || c == '\U{a0}' || c == '\U{1680}'
    || ('\U{2000}' <= c <= '\U{200a}')
    || c == '\U{2028}' || c == '\U{2029}' || c == '\U{202f}' || c == '\U{205f}' || c == '\U{3000}'
  }

  predicate NoSpaceAtEnds(s: string) {
    s == [] || (!IsSpace(s[0]) && !IsSpace(s[|s| - 1]))
  }

  /** `s.strip()`: drops whitespace from both ends, leading first. */
  function Strip(s: string): (r: string)
    ensures |r| <= |s|
    ensures NoSpaceAtEnds(r)
    ensures r == [] <==> forall k :: 0 <= k < |s| ==> IsSpace(s[k])
    decreases |s|
  {
    if s == [] then s
    else if IsSpace(s[0]) then Strip(s[1..])
    else if IsSpace(s[|s| - 1]) then Strip(s[..|s| - 1])
    else s
  }

  /** The number of whitespace characters `s` starts with. */
  function LeadingSpaces(s: string): (n: nat)
    ensures n <= |s|
    decreases |s|
  {
    if s != [] && IsSpace(s[0]) then 1 + LeadingSpaces(s[1..]) else 0
  }

  /** Stripping removes whitespace only: what it returns sits in `s` right
      after the leading whitespace, and only whitespace follows it. */
  lemma {:induction false} StripIsInfix(s: string)
    ensures LeadingSpaces(s) + |Strip(s)| <= |s|
    ensures s[LeadingSpaces(s)..LeadingSpaces(s) + |Strip(s)|] == Strip(s)
    ensures forall k :: 0 <= k < LeadingSpaces(s) ==> IsSpace(s[k])
    ensures forall k :: LeadingSpaces(s) + |Strip(s)| <= k < |s| ==> IsSpace(s[k])
    decreases |s|
  {
    if s != [] && IsSpace(s[0]) {
      StripAfterLeadingSpace(s);
    } else if s != [] && IsSpace(s[|s| - 1]) {
      StripBeforeTrailingSpace(s);
    } else {
      assert s[0..|s|] == s;
    }
  }

  lemma {:induction false} StripAfterLeadingSpace(s: string)
    requires s != [] && IsSpace(s[0])
    ensures LeadingSpaces(s) + |Strip(s)| <= |s|
    ensures s[LeadingSpaces(s)..LeadingSpaces(s) + |Strip(s)|] == Strip(s)
    ensures forall k :: 0 <= k < LeadingSpaces(s) ==> IsSpace(s[k])
    ensures forall k :: LeadingSpaces(s) + |Strip(s)| <= k < |s| ==> IsSpace(s[k])
    decreases |s|, 0
  {
    var t := s[1..];
    StripIsInfix(t);
    var i := LeadingSpaces(t);
    var r := Strip(t);
    assert LeadingSpaces(s) == i + 1 && Strip(s) == r;
    assert s[i + 1..i + 1 + |r|] == t[i..i + |r|];
    forall k | 0 <= k < i + 1 ensures IsSpace(s[k]) {
      if k > 0 {
        assert s[k] == t[k - 1];
      }
    }
    forall k | i + 1 + |r| <= k < |s| ensures IsSpace(s[k]) {
      assert s[k] == t[k - 1];
    }
  }

  lemma {:induction false} StripBeforeTrailingSpace(s: string)
    requires s != [] && !IsSpace(s[0]) && IsSpace(s[|s| - 1])
    ensures LeadingSpaces(s) == 0 && |Strip(s)| <= |s|
    ensures s[..|Strip(s)|] == Strip(s)
    ensures forall k :: |Strip(s)| <= k < |s| ==> IsSpace(s[k])
    decreases |s|, 0
  {
    var t := s[..|s| - 1];
    StripIsInfix(t);
    var r := Strip(t);
    assert LeadingSpaces(t) == 0 && LeadingSpaces(s) == 0;
    assert Strip(s) == r;
    assert s[..|r|] == t[..|r|];
    forall k | |r| <= k < |s| ensures IsSpace(s[k]) {
      if k < |s| - 1 {
        assert s[k] == t[k];
      }
    }
  }

  /** A string without whitespace at either end is its own strip. */
  lemma StripFixedPoint(s: string)
    requires NoSpaceAtEnds(s)
    ensures Strip(s) == s
  {
  }

  /** `strip` is idempotent, so stripping a reply twice changes nothing. */
  lemma StripIdempotent(s: string)
    ensures Strip(Strip(s)) == Strip(s)
  {
    StripFixedPoint(Strip(s));
  }

  /** `s.startswith(p)`. */
  predicate StartsWith(s: string, p: string) {
    |p| <= |s| && s[..|p|] == p
  }

  /** `s.find(c)`: the index of the first `c`, or -1 when there is none. */
  function Find(s: string, c: char): (r: int)
    ensures -1 <= r < |s|
    ensures r == -1 <==> c !in s
    ensures 0 <= r ==> s[r] == c && c !in s[..r]
    decreases |s|
  {
    if s == [] then -1
    else if s[0] == c then 0
    else
      var k := Find(s[1..], c);
      assert s[1..][..if k < 0 then 0 else k] == s[1..1 + if k < 0 then 0 else k];
      if k < 0 then -1 else k + 1
  }

  /** How CPython normalises one slice bound against a length `n`:
      a negative bound counts from the end, and the result is clamped to `0..n`. */
  function SliceBound(i: int, n: nat): (r: nat)
    ensures r <= n
    ensures 0 <= i <= n ==> r == i
    ensures i < 0 <= i + n ==> r == i + n
    ensures i + n < 0 ==> r == 0
    ensures n < i ==> r == n
  {
    if i < 0 then (if i + n < 0 then 0 else i + n)
    else if i > n then n
    else i
  }

  /** `s[start:stop]` with Python's bound rules; an empty range gives "". */
  function Slice(s: string, start: int, stop: int): (r: string)
    ensures |r| <= |s|
    ensures 0 <= start <= stop <= |s| ==> r == s[start..stop]
    ensures 0 <= start < |s| && stop == -1 ==> r == s[start..|s| - 1]
    ensures SliceBound(stop, |s|) <= SliceBound(start, |s|) ==> r == []
  {
    var lo := SliceBound(start, |s|);
    var hi := SliceBound(stop, |s|);
    if lo < hi then s[lo..hi] else []
  }

  /** `s.split(sep)` for a one-character separator: the pieces between separators,
      always at least one (so "" splits into [""]). */
  function Split(s: string, sep: char): (r: seq<string>)
    ensures |r| >= 1
    ensures forall i :: 0 <= i < |r| ==> sep !in r[i]
    ensures sep !in s ==> r == [s]
    decreases |s|
  {
    var k := Find(s, sep);
    if k < 0 then [s] else [s[..k]] + Split(s[k + 1..], sep)
  }

  /** `sep.join(xs)`. */
  function Join(xs: seq<string>, sep: char): (r: string)
    decreases |xs|
  {
    if xs == [] then []
    else if |xs| == 1 then xs[0]
    else xs[0] + [sep] + Join(xs[1..], sep)
  }

  /** Joining the pieces of a split gives the original string back. */
  lemma {:induction false} JoinSplit(s: string, sep: char)
    ensures Join(Split(s, sep), sep) == s
    decreases |s|
  {
    var k := Find(s, sep);
    if k >= 0 {
      var head, rest := s[..k], s[k + 1..];
      var tail := Split(rest, sep);
      SplitAtFirst(s, sep);
      JoinSplit(rest, sep);
      JoinCons(head, tail, sep);
      CutAt(s, k);
    }
  }

  /** Splitting at a first separator: the piece before it, then the split of the rest. */
  lemma SplitAtFirst(s: string, sep: char)
    requires Find(s, sep) >= 0
    ensures Split(s, sep) == [s[..Find(s, sep)]] + Split(s[Find(s, sep) + 1..], sep)
  {
  }

  /** A string is what comes before index k, the character at k and what follows. */
  lemma CutAt(s: string, k: nat)
    requires k < |s|
    ensures s == s[..k] + [s[k]] + s[k + 1..]
  {
  }

  /** Joining a list is its first piece, the separator and the join of the rest. */
  lemma JoinCons(x: string, xs: seq<string>, sep: char)
    requires xs != []
    ensures Join([x] + xs, sep) == x + [sep] + Join(xs, sep)
  {
    var ys := [x] + xs;
    assert |ys| > 1 && ys[0] == x && ys[1..] == xs;
  }

  /** Splitting a join of separator-free pieces gives the pieces back. */
  lemma {:induction false} SplitJoin(xs: seq<string>, sep: char)
    requires |xs| >= 1
    requires forall i :: 0 <= i < |xs| ==> sep !in xs[i]
    ensures Split(Join(xs, sep), sep) == xs
    decreases |xs|
  {
    if |xs| > 1 {
      var s := Join(xs, sep);
      var k := |xs[0]|;
      JoinFirst(xs, sep);
      assert Find(s, sep) == k by {
        FindFirst(s, sep, k);
      }
      SplitJoin(xs[1..], sep);
      assert xs == [xs[0]] + xs[1..];
    }
  }

  /** `find` returns the index of a character when nothing before it is that character. */
  lemma FindFirst(s: string, c: char, k: nat)
    requires k < |s| && s[k] == c && c !in s[..k]
    ensures Find(s, c) == k
  {
    assert c in s;
    var r := Find(s, c);
    assert forall j :: 0 <= j < k ==> s[..k][j] == s[j];
    assert forall j :: 0 <= j < r ==> s[..r][j] == s[j];
  }

  /** The characters at which `str.splitlines` ends a line. */
  predicate IsLineBreak(c: char) {
    || c == '\n' || c == '\r' || c == '\U{0b}' || c == '\U{0c}'
    || c == '\U{1c}' || c == '\U{1d}' || c == '\U{1e}'
    || c == '\U{85}' || c == '\U{2028}' || c == '\U{2029}'
  }

  predicate NoLineBreak(s: string) {
    forall k :: 0 <= k < |s| ==> !IsLineBreak(s[k])
  }

  /** The index of the first line break in `s`, or |s| when there is none. */
  function FirstBreak(s: string): (k: nat)
    ensures k <= |s|
    ensures NoLineBreak(s[..k])
    ensures k < |s| ==> IsLineBreak(s[k])
    decreases |s|
  {
    if s == [] then 0
    else if IsLineBreak(s[0]) then 0
    else
      var k := FirstBreak(s[1..]);
      assert s[..k + 1] == [s[0]] + s[1..][..k];
      k + 1
  }

  /** `s.splitlines()`: the lines of `s` without their terminators; "\r\n" ends one line,
      a final terminator does not open an empty last line, and "" has no lines. */
  function SplitLines(s: string): (r: seq<string>)
    ensures forall i :: 0 <= i < |r| ==> NoLineBreak(r[i])
    ensures |r| <= |s|
    decreases |s|
  {
    if s == [] then []
    else
      var k := FirstBreak(s);
      if k == |s| then [s]
      else
        var width := if s[k] == '\r' && k + 1 < |s| && s[k + 1] == '\n' then 2 else 1;
        [s[..k]] + SplitLines(s[k + width..])
  }

  /** Each line followed by a line feed, as a device that terminates every line sends them. */
  function Terminated(lines: seq<string>): string
    decreases |lines|
  {
    if lines == [] then [] else lines[0] + "\n" + Terminated(lines[1..])
  }

  /** `splitlines` takes newline-terminated lines apart again. */
  lemma {:induction false} SplitLinesTerminated(lines: seq<string>)
    requires forall i :: 0 <= i < |lines| ==> NoLineBreak(lines[i])
    ensures SplitLines(Terminated(lines)) == lines
    decreases |lines|
  {
    if lines != [] {
      var s := Terminated(lines);
      var rest := Terminated(lines[1..]);
      var n := |lines[0]|;
      assert s == lines[0] + "\n" + rest;
      assert s[..n] == lines[0];
      assert FirstBreak(s) == n by { FirstBreakAt(s, n); }
      assert s[n + 1..] == rest;
      SplitLinesTerminated(lines[1..]);
    }
  }

  /** A line feed after a break-free prefix ends the first line. */
  lemma SplitLinesAt(s: string, k: nat)
    requires k < |s| && s[k] == '\n' && NoLineBreak(s[..k])
    ensures SplitLines(s) == [s[..k]] + SplitLines(s[k + 1..])
  {
    FirstBreakAt(s, k);
  }

  /** A non-empty string without line breaks is one line. */
  lemma SplitLinesOne(s: string)
    requires s != [] && NoLineBreak(s)
    ensures SplitLines(s) == [s]
  {
    assert FirstBreak(s) == |s|;
  }

  /** Where the first piece and the first separator of a join sit. */
  lemma JoinFirst(xs: seq<string>, sep: char)
    requires |xs| > 1
    ensures |xs[0]| < |Join(xs, sep)|
    ensures Join(xs, sep)[..|xs[0]|] == xs[0]
    ensures Join(xs, sep)[|xs[0]|] == sep
    ensures Join(xs, sep)[|xs[0]| + 1..] == Join(xs[1..], sep)
  {
    assert Join(xs, sep) == xs[0] + [sep] + Join(xs[1..], sep);
  }

  lemma FirstBreakAt(s: string, k: nat)
    requires k < |s| && IsLineBreak(s[k]) && NoLineBreak(s[..k])
    ensures FirstBreak(s) == k
  {
    var r := FirstBreak(s);
    assert forall j :: 0 <= j < k ==> s[..k][j] == s[j];
    assert forall j :: 0 <= j < r ==> s[..r][j] == s[j];
  }

  predicate IsDigit(c: char) {
    '0' <= c <= '9'
  }

  /** `s.isdigit()`: non-empty and made of digits only. */
  predicate IsDigits(s: string) {
    |s| > 0 && forall k :: 0 <= k < |s| ==> IsDigit(s[k])
  }

  function DigitValue(c: char): (d: nat)
    requires IsDigit(c)
    ensures d < 10
  {
    c as int - '0' as int
  }

  function DigitChar(d: nat): (c: char)
    requires d < 10
    ensures IsDigit(c) && DigitValue(c) == d
  {
    ('0' as int + d) as char
  }

  /** `int(s)` of a digit string (leading zeros allowed, as in Python). */
  function ParseNat(s: string): nat
    requires forall k :: 0 <= k < |s| ==> IsDigit(s[k])
    decreases |s|
  {
    if s == [] then 0 else ParseNat(s[..|s| - 1]) * 10 + DigitValue(s[|s| - 1])
  }

  /** `str(n)` for a natural number: its decimal digits, with no leading zero. */
  function NatToString(n: nat): (r: string)
    ensures IsDigits(r)
    ensures |r| > 1 ==> r[0] != '0'
    decreases n
  {
    if n < 10 then [DigitChar(n)] else NatToString(n / 10) + [DigitChar(n % 10)]
  }

  /** Parsing the decimal form of a number gives the number back. */
  lemma {:induction false} ParseNatToString(n: nat)
    ensures ParseNat(NatToString(n)) == n
    decreases n
  {
    if n >= 10 {
      var s := NatToString(n);
      assert s[..|s| - 1] == NatToString(n / 10);
      ParseNatToString(n / 10);
    }
  }

  /** Decimal forms are distinct for distinct numbers. */
  lemma NatToStringInjective(m: nat, n: nat)
    requires NatToString(m) == NatToString(n)
    ensures m == n
  {
    ParseNatToString(m);
    ParseNatToString(n);
  }

  /** `str(i)` for any integer, with a leading '-' for a negative one. */
  function IntToString(i: int): (r: string)
    ensures 0 <= i ==> r == NatToString(i)
    ensures i < 0 ==> r == "-" + NatToString(-i)
  {
    if i < 0 then "-" + NatToString(-i) else NatToString(i)
  }

  /** What `chr` makes of each byte of a payload: the Latin-1 character with that code. */
  function Latin1(bytes: seq<bv8>): (r: string)
    ensures |r| == |bytes|
    ensures forall k :: 0 <= k < |r| ==> r[k] as int == bytes[k] as int
  {
    seq(|bytes|, k requires 0 <= k < |bytes| => (bytes[k] as int) as char)
  }

  /** Different payloads are different texts: no byte is lost or merged. */
  lemma Latin1Injective(a: seq<bv8>, b: seq<bv8>)
    requires Latin1(a) == Latin1(b)
    ensures a == b
  {
    forall k | 0 <= k < |a|
      ensures a[k] == b[k]
    {
      assert Latin1(a)[k] as int == a[k] as int && Latin1(b)[k] as int == b[k] as int;
    }
  }
}
