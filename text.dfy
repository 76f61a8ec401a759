/** String helpers shared by the model: the parts of Python's string
    methods and `%` formatting that the orchestration code relies on. The
    values read from the project index are `unicode` strings; the regular
    expressions carry no UNICODE flag, so `\w` and `\s` are the ASCII
    classes, and the model uses the same ASCII classes for `split()`,
    `strip()` and `lower()`, which on `unicode` also know the non-ASCII
    whitespace and letters. */
module Text {
  import opened Wrappers

  /** `\s` of Python 2's `re` without the UNICODE flag; also the ASCII
      part of the separators of `split()` and `strip()`. */
  predicate IsSpace(c: char) {
    c == ' ' || c == '\t' || c == '\n' || c == '\r' || c == '\U{0B}' || c == '\U{0C}'
  }

  predicate IsDigit(c: char) { '0' <= c <= '9' }

  /** `\w` of Python 2's `re` without the UNICODE flag: ASCII only, on
      byte and `unicode` strings alike. */
  predicate IsWordChar(c: char) {
    ('a' <= c <= 'z') || ('A' <= c <= 'Z') || IsDigit(c) || c == '_'
  }

  predicate NoSpace(s: string) {
    forall i :: 0 <= i < |s| ==> !IsSpace(s[i])
  }

  predicate AllSpace(s: string) {
    forall i :: 0 <= i < |s| ==> IsSpace(s[i])
  }

  predicate StartsWith(s: string, prefix: string) {
    |prefix| <= |s| && s[..|prefix|] == prefix
  }

  predicate EndsWith(s: string, suffix: string) {
    |suffix| <= |s| && s[|s| - |suffix|..] == suffix
  }

  /** `s[:n]`, also `'%.<n>s' % s`. */
  function Prefix(s: string, n: nat): (r: string)
    ensures |r| == if n < |s| then n else |s|
    ensures StartsWith(s, r)
  {
    if n < |s| then s[..n] else s
  }

  /** Length of the longest prefix of `s` made of spaces. */
  function LeadingSpaces(s: string): (k: nat)
    ensures k <= |s| && AllSpace(s[..k])
    ensures k < |s| ==> !IsSpace(s[k])
  {
    if s == [] || !IsSpace(s[0]) then 0
    else
      var k := 1 + LeadingSpaces(s[1..]);
      assert s[..k] == [s[0]] + s[1..][..k - 1];
      k
  }

  /** Length of the longest prefix of `s` without spaces. */
  function LeadingWord(s: string): (k: nat)
    ensures k <= |s| && NoSpace(s[..k])
    ensures k < |s| ==> IsSpace(s[k])
  {
    if s == [] || IsSpace(s[0]) then 0
    else
      var k := 1 + LeadingWord(s[1..]);
      assert s[..k] == [s[0]] + s[1..][..k - 1];
      k
  }

  /** `s` is `lead` spaces, then `word`, then `rest`, which is empty or
      starts with a space. */
  predicate SplitsAround(s: string, lead: nat, word: string, rest: string) {
    lead <= |s| && AllSpace(s[..lead]) && s == s[..lead] + word + rest &&
    (rest == [] || IsSpace(rest[0]))
  }

  /** `s.split()[0]`: the first whitespace-separated token, `None` when
      `split()` returns an empty list (Python then raises IndexError). */
  function FirstToken(s: string): (r: Option<string>)
    ensures r.None? <==> AllSpace(s)
    ensures r.Some? ==>
      r.value != [] && NoSpace(r.value) &&
      exists lead: nat, rest: string :: SplitsAround(s, lead, r.value, rest)
  {
    var lead := LeadingSpaces(s);
    if lead == |s| then
      assert s[..lead] == s;
      None
    else
      var t := s[lead..];
      var w := LeadingWord(t);
      var rest := t[w..];
      assert s == s[..lead] + t[..w] + rest;
      assert t[..w] != [] by { assert !IsSpace(t[0]); }
      assert SplitsAround(s, lead, t[..w], rest);
      Some(t[..w])
  }

  /** `s.lower()` on ASCII letters; other letters are left as they
      are. */
  function Lower(s: string): (r: string)
    ensures |r| == |s|
    ensures forall i :: 0 <= i < |s| ==>
      r[i] == if 'A' <= s[i] <= 'Z' then (s[i] as int + 32) as char else s[i]
  {
    if s == [] then []
    else [if 'A' <= s[0] <= 'Z' then (s[0] as int + 32) as char else s[0]] + Lower(s[1..])
  }

  /** `s[i..j]` has only `c` outside it. */
  predicate StripSlice(s: string, c: char, i: int, j: int) {
    0 <= i <= j <= |s| && (forall k :: 0 <= k < i ==> s[k] == c) && (forall k :: j <= k < |s| ==> s[k] == c)
  }

  /** `r` is `s` with its leading and trailing runs of `c` cut: a slice
      of `s` with only `c` outside it that neither starts nor ends with
      `c`. */
  predicate IsStripOf(s: string, c: char, r: string) {
    (r == [] || (r[0] != c && r[|r| - 1] != c)) &&
    exists i, j :: 0 <= i <= j <= |s| && StripSlice(s, c, i, j) && r == s[i..j]
  }

  /** Two slices with only `c` outside them, the first starting and
      ending with another character: the second is not empty, and when it
      also starts and ends with another character it is the same slice. */
  lemma SameSlice(s: string, c: char, i1: int, j1: int, i2: int, j2: int)
    requires StripSlice(s, c, i1, j1) && StripSlice(s, c, i2, j2)
    requires i1 < j1 && s[i1] != c && s[j1 - 1] != c
    requires i2 < j2 ==> s[i2] != c && s[j2 - 1] != c
    ensures i2 < j2 ==> i1 == i2 && j1 == j2
    ensures i2 != j2
  {
    assert i2 <= i1 < j2;
    if i2 < j2 {
      assert i1 <= i2;
      assert j2 <= j1 && j1 <= j2;
    }
  }

  /** A string has one strip of `c`. */
  lemma StripOfUnique(s: string, c: char, r1: string, r2: string)
    requires IsStripOf(s, c, r1) && IsStripOf(s, c, r2)
    ensures r1 == r2
  {
    var i1, j1 :| 0 <= i1 <= j1 <= |s| && StripSlice(s, c, i1, j1) && r1 == s[i1..j1];
    var i2, j2 :| 0 <= i2 <= j2 <= |s| && StripSlice(s, c, i2, j2) && r2 == s[i2..j2];
    if r1 != [] {
      assert s[i1] == r1[0] && s[j1 - 1] == r1[|r1| - 1];
      if r2 != [] {
        assert s[i2] == r2[0] && s[j2 - 1] == r2[|r2| - 1];
      }
      SameSlice(s, c, i1, j1, i2, j2);
    } else if r2 != [] {
      assert false;
    }
  }

  /** Drops every leading and trailing occurrence of `c`: `s.strip(c)`. */
  function StripChar(s: string, c: char): (r: string)
    ensures IsStripOf(s, c, r)
  {
    var i := DropWhile(s, c);
    var j := |s| - DropWhile(Reverse(s), c);
    if i >= j then
      assert forall k :: 0 <= k < |s| ==> s[k] == c by {
        forall k | 0 <= k < |s| ensures s[k] == c {
          if k >= i { assert Reverse(s)[|s| - 1 - k] == s[k]; }
        }
      }
      assert [] == s[|s|..|s|];
      assert IsStripOf(s, c, []) by {
        assert [] == s[|s|..|s|] && StripSlice(s, c, |s|, |s|);
      }
      []
    else
      assert s[j - 1] == Reverse(s)[|s| - j];
      assert forall k :: j <= k < |s| ==> s[k] == c by {
        forall k | j <= k < |s| ensures s[k] == c { assert Reverse(s)[|s| - 1 - k] == s[k]; }
      }
      assert IsStripOf(s, c, s[i..j]) by {
        assert StripSlice(s, c, i, j);
      }
      s[i..j]
  }

  /** Length of the longest suffix of `s` made of spaces. */
  function TrailingSpaces(s: string): (k: nat)
    ensures k <= |s| && AllSpace(s[|s| - k..])
    ensures k < |s| ==> !IsSpace(s[|s| - k - 1])
  {
    if s == [] || !IsSpace(s[|s| - 1]) then 0
    else
      var t := s[..|s| - 1];
      var k := 1 + TrailingSpaces(t);
      assert s[|s| - k..] == t[|t| - (k - 1)..] + [s[|s| - 1]];
      k
  }

  /** `s.strip()`: drops leading and trailing whitespace. */
  function Strip(s: string): (r: string)
    ensures r == [] || (!IsSpace(r[0]) && !IsSpace(r[|r| - 1]))
    ensures exists i, j :: 0 <= i <= j <= |s| && r == s[i..j] && AllSpace(s[..i]) && AllSpace(s[j..])
  {
    var i := LeadingSpaces(s);
    if i == |s| then
      assert AllSpace(s[|s|..]);
      []
    else
      var j := |s| - TrailingSpaces(s);
      s[i..j]
  }

  /** Number of leading occurrences of `c` in `s`. */
  function DropWhile(s: string, c: char): (k: nat)
    ensures k <= |s|
    ensures forall i :: 0 <= i < k ==> s[i] == c
    ensures k < |s| ==> s[k] != c
  {
    if s == [] || s[0] != c then 0 else 1 + DropWhile(s[1..], c)
  }

  function Reverse<T>(s: seq<T>): (r: seq<T>)
    ensures |r| == |s|
    ensures forall i :: 0 <= i < |s| ==> r[i] == s[|s| - 1 - i]
  {
    if s == [] then [] else Reverse(s[1..]) + [s[0]]
  }

  /** `s.split(c)[0]`: everything before the first `c`. */
  function Before(s: string, c: char): (r: string)
    ensures StartsWith(s, r)
    ensures c !in r
    ensures |r| < |s| ==> s[|r|] == c
  {
    if s == [] || s[0] == c then [] else [s[0]] + Before(s[1..], c)
  }

  /** `sep.join(parts)`. */
  function Join(parts: seq<string>, sep: string): (r: string)
    ensures parts == [] ==> r == []
    ensures |parts| == 1 ==> r == parts[0]
  {
    if parts == [] then []
    else if |parts| == 1 then parts[0]
    else parts[0] + sep + Join(parts[1..], sep)
  }

  /** `s.replace(pat, rep)`: left-to-right, non-overlapping. */
  function Replace(s: string, pat: string, rep: string): string
    requires pat != []
    decreases |s|
  {
    if s == [] then []
    else if StartsWith(s, pat) then rep + Replace(s[|pat|..], pat, rep)
    else [s[0]] + Replace(s[1..], pat, rep)
  }

  /** Decimal digits of `n` without leading zeros (`'%d' % n`). */
  function Decimal(n: nat): (r: string)
    ensures r != [] && forall i :: 0 <= i < |r| ==> IsDigit(r[i])
    ensures |r| > 1 ==> r[0] != '0'
    decreases n
  {
    if n < 10 then [('0' as int + n) as char]
    else Decimal(n / 10) + [('0' as int + n % 10) as char]
  }

  /** Value of a string of decimal digits. */
  function DecimalValue(s: string): nat
    requires forall i :: 0 <= i < |s| ==> IsDigit(s[i])
  {
    if s == [] then 0
    else
      assert IsDigit(s[|s| - 1]);
      DecimalValue(s[..|s| - 1]) * 10 + (s[|s| - 1] as int - '0' as int)
  }

  lemma {:induction false} DecimalRoundTrip(n: nat)
    ensures DecimalValue(Decimal(n)) == n
    decreases n
  {
    if n >= 10 {
      var d := Decimal(n / 10);
      var r := Decimal(n);
      assert r[..|r| - 1] == d;
      DecimalRoundTrip(n / 10);
    }
  }

  /** `'%0<width>d' % n`: decimal digits left-padded with zeros. */
  function ZeroPad(n: nat, width: nat): (r: string)
    ensures |r| >= width && forall i :: 0 <= i < |r| ==> IsDigit(r[i])
  {
    var d := Decimal(n);
    if |d| >= width then d else Zeros(width - |d|) + d
  }

  function Zeros(k: nat): (r: string)
    ensures |r| == k && forall i :: 0 <= i < k ==> r[i] == '0'
  {
    if k == 0 then [] else Zeros(k - 1) + ['0']
  }

  lemma {:induction false} LeadingZerosAddNothing(z: nat, s: string)
    requires forall i :: 0 <= i < |s| ==> IsDigit(s[i])
    ensures DecimalValue(Zeros(z) + s) == DecimalValue(s)
    decreases |s|
  {
    var t := Zeros(z) + s;
    if s == [] {
      ZerosValue(z);
      assert t == Zeros(z);
    } else {
      assert t[..|t| - 1] == Zeros(z) + s[..|s| - 1];
      LeadingZerosAddNothing(z, s[..|s| - 1]);
    }
  }

  lemma {:induction false} ZerosValue(z: nat)
    ensures DecimalValue(Zeros(z)) == 0
  {
    if z > 0 {
      var t := Zeros(z);
      assert t[..|t| - 1] == Zeros(z - 1);
      ZerosValue(z - 1);
    }
  }

  /** Zero padding never loses the number: reading the digits back gives
      `n`, so two different sequence numbers never share a padded form. */
  lemma ZeroPadRoundTrip(n: nat, width: nat)
    ensures DecimalValue(ZeroPad(n, width)) == n
  {
    DecimalRoundTrip(n);
    var d := Decimal(n);
    if |d| < width {
      LeadingZerosAddNothing(width - |d|, d);
    }
  }
}
