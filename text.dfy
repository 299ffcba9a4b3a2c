/**
 * Python string operations the core relies on, over `string` (`seq<char>`):
 * whitespace classes, `lower`, `strip`, `split`/`join`, `startswith`,
 * `count`, `str(int)` and `int(str)`.  Whitespace is Python's full set;
 * digits and case are the ASCII part of Python's Unicode classes.
 */
module Text {
  import opened Wrappers

  /** Python's `str.isspace` and the regex class `\s` (the characters
      `str.split()` with no argument splits on). */
  predicate IsSpace(c: char) {
    c == ' ' || c == '\t' || c == '\n' || c == '\r' || c == '\U{B}' || c == '\U{C}'
    || ('\U{1C}' <= c <= '\U{1F}') || c == '\U{85}' || c == '\U{A0}' || c == '\U{1680}'
    || ('\U{2000}' <= c <= '\U{200A}') || c == '\U{2028}' || c == '\U{2029}'
    || c == '\U{202F}' || c == '\U{205F}' || c == '\U{3000}'
  }

  predicate IsDigit(c: char) {
    '0' <= c <= '9'
  }

  predicate AllDigits(s: string) {
    forall i :: 0 <= i < |s| ==> IsDigit(s[i])
  }

  /** Python's `str.isdigit()`: non-empty and every character a digit. */
  predicate IsDigitString(s: string) {
    |s| > 0 && AllDigits(s)
  }

  function LowerChar(c: char): (r: char)
    ensures !('A' <= r <= 'Z')
    ensures !('A' <= c <= 'Z') ==> r == c
  {
    if 'A' <= c <= 'Z' then (c as int + 32) as char else c
  }

  /** Python's `str.lower()` on ASCII letters. */
  function Lower(s: string): (r: string)
    ensures |r| == |s|
    ensures forall i :: 0 <= i < |s| ==> r[i] == LowerChar(s[i])
  {
    if s == [] then [] else [LowerChar(s[0])] + Lower(s[1..])
  }

  predicate StartsWith(s: string, prefix: string) {
    |prefix| <= |s| && s[..|prefix|] == prefix
  }

  predicate EndsWith(s: string, suffix: string) {
    |suffix| <= |s| && s[|s| - |suffix|..] == suffix
  }

  /** Python's `s.count(c)` for a single character. */
  function CountChar(s: string, c: char): (n: nat)
    ensures n == multiset(s)[c]
  {
    if s == [] then 0
    else
      assert s == [s[0]] + s[1..];
      (if s[0] == c then 1 else 0) + CountChar(s[1..], c)
  }

  /** Python's `s.replace(c, '')`: the characters of `s` other than `c`,
      in order. */
  function RemoveChar(s: string, c: char): (r: string)
    ensures forall x :: x in r <==> x in s && x != c
    ensures |r| <= |s|
  {
    if s == [] then []
    else
      var r := (if s[0] == c then [] else [s[0]]) + RemoveChar(s[1..], c);
      assert forall x :: x in s <==> x == s[0] || x in s[1..];
      r
  }

  /** A string without `c` is left alone. */
  lemma {:induction false} RemoveCharAbsent(s: string, c: char)
    requires forall k :: 0 <= k < |s| ==> s[k] != c
    ensures RemoveChar(s, c) == s
  {
    if s != [] {
      RemoveCharAbsent(s[1..], c);
    }
  }

  /** Removing `c` from a concatenation removes it from each part. */
  lemma {:induction false} RemoveCharConcat(a: string, b: string, c: char)
    ensures RemoveChar(a + b, c) == RemoveChar(a, c) + RemoveChar(b, c)
  {
    if a != [] {
      RemoveCharConcat(a[1..], b, c);
      assert (a + b)[1..] == a[1..] + b;
    } else {
      assert a + b == b;
    }
  }

  // ---------------------------------------------------------------------
  // Whitespace: leading/trailing runs and `strip()`
  // ---------------------------------------------------------------------

  /** Length of the run of whitespace at the start of `s`. */
  function LeadingSpaces(s: string): (n: nat)
    ensures n <= |s|
    ensures forall i :: 0 <= i < n ==> IsSpace(s[i])
    ensures n == |s| || !IsSpace(s[n])
  {
    if s == [] || !IsSpace(s[0]) then 0 else 1 + LeadingSpaces(s[1..])
  }

  /** Length of the run of whitespace at the end of `s`. */
  function TrailingSpaces(s: string): (n: nat)
    ensures n <= |s|
    ensures forall i :: |s| - n <= i < |s| ==> IsSpace(s[i])
    ensures n == |s| || !IsSpace(s[|s| - n - 1])
  {
    if s == [] || !IsSpace(s[|s| - 1]) then 0 else 1 + TrailingSpaces(s[..|s| - 1])
  }

  /** Python's `str.strip()` with no argument. */
  function Strip(s: string): (r: string)
    ensures r == [] || (!IsSpace(r[0]) && !IsSpace(r[|r| - 1]))
    ensures LeadingSpaces(s) + |r| <= |s| && r == s[LeadingSpaces(s)..LeadingSpaces(s) + |r|]
    ensures r == [] <==> LeadingSpaces(s) == |s|
  {
    var a := s[LeadingSpaces(s)..];
    a[..|a| - TrailingSpaces(a)]
  }

  /** A string with no whitespace at either end is its own `strip()`. */
  lemma StripUnchanged(s: string)
    requires s == [] || (!IsSpace(s[0]) && !IsSpace(s[|s| - 1]))
    ensures Strip(s) == s
  {
    if s != [] {
      assert LeadingSpaces(s) == 0;
      assert s[0..] == s;
      assert TrailingSpaces(s) == 0;
    }
  }

  /** Stripping a string that begins with a non-space character and has
      one space in front of it drops that space. */
  lemma StripConsSpace(x: string)
    requires x != [] && !IsSpace(x[0])
    ensures Strip(" " + x) == Strip(x)
  {
    assert LeadingSpaces(" " + x) == 1 + LeadingSpaces(x);
    assert (" " + x)[1..] == x;
    assert x[0..] == x;
  }

  /** Trailing whitespace does not reach into a prefix when the suffix has a
      non-space character. */
  lemma {:induction false} TrailingAppend(p: string, z: string)
    requires TrailingSpaces(z) < |z|
    ensures TrailingSpaces(p + z) == TrailingSpaces(z)
    decreases |z|
  {
    if IsSpace(z[|z| - 1]) {
      var z' := z[..|z| - 1];
      assert (p + z)[..|p + z| - 1] == p + z';
      TrailingAppend(p, z');
    }
  }

  /** `strip()` leaves a prefix that begins with a non-space character alone
      when the rest also begins with one. */
  lemma StripPrefix(p: string, z: string)
    requires p != [] && !IsSpace(p[0]) && z != [] && !IsSpace(z[0])
    ensures Strip(p + z) == p + Strip(z)
  {
    assert LeadingSpaces(p + z) == 0 && LeadingSpaces(z) == 0;
    assert (p + z)[0..] == p + z && z[0..] == z;
    TrailingAppend(p, z);
    assert (p + z)[..|p + z| - TrailingSpaces(z)] == p + z[..|z| - TrailingSpaces(z)];
  }

  // ---------------------------------------------------------------------
  // Words: `str.split()` with no argument
  // ---------------------------------------------------------------------

  /** Length of the run of non-whitespace characters at the start of `s`. */
  function WordLength(s: string): (n: nat)
    ensures n <= |s|
    ensures forall i :: 0 <= i < n ==> !IsSpace(s[i])
    ensures n == |s| || IsSpace(s[n])
  {
    if s == [] || IsSpace(s[0]) then 0 else 1 + WordLength(s[1..])
  }

  /** Python's `s.split()`: the maximal runs of non-whitespace characters,
      in order.  Each word is non-empty and holds no whitespace. */
  function Words(s: string): (r: seq<string>)
    ensures forall k :: 0 <= k < |r| ==> r[k] != []
    ensures forall k, i :: 0 <= k < |r| && 0 <= i < |r[k]| ==> !IsSpace(r[k][i])
    decreases |s|
  {
    var a := LeadingSpaces(s);
    if a == |s| then []
    else
      var t := s[a..];
      var n := WordLength(t);
      var w := t[..n];
      var rest := Words(t[n..]);
      assert forall i :: 0 <= i < |w| ==> !IsSpace(w[i]);
      var r := [w] + rest;
      assert forall k :: 1 <= k < |r| ==> r[k] == rest[k - 1];
      r
  }

  /** Leading whitespace does not change the words. */
  lemma WordsSkipSpaces(s: string)
    ensures Words(s) == Words(s[LeadingSpaces(s)..])
  {
    var t := s[LeadingSpaces(s)..];
    assert LeadingSpaces(t) == 0;
    assert t[0..] == t;
  }

  // ---------------------------------------------------------------------
  // Substring search, `split` and `join`
  // ---------------------------------------------------------------------

  predicate OccursAt(s: string, i: nat, pat: string) {
    i + |pat| <= |s| && s[i..i + |pat|] == pat
  }

  /** Python's `pat in s`. */
  predicate Contains(s: string, pat: string) {
    exists i: nat | i <= |s| :: OccursAt(s, i, pat)
  }

  lemma OccursAtTail(s: string, j: nat, pat: string)
    requires |s| > 0
    ensures OccursAt(s, j + 1, pat) <==> OccursAt(s[1..], j, pat)
  {
    if j + 1 + |pat| <= |s| {
      assert s[j + 1..j + 1 + |pat|] == s[1..][j..j + |pat|];
    }
  }

  /** Python's `s.find(pat)`: the leftmost occurrence, if any. */
  function FirstIndexOf(s: string, pat: string): (r: Option<nat>)
    requires |pat| > 0
    ensures r.Some? ==> OccursAt(s, r.value, pat)
    ensures r.Some? ==> forall j: nat :: j < r.value ==> !OccursAt(s, j, pat)
    ensures r.None? <==> !Contains(s, pat)
    decreases |s|
  {
    if |s| < |pat| then None
    else if s[..|pat|] == pat then Some(0)
    else
      match FirstIndexOf(s[1..], pat)
      case None =>
        assert !OccursAt(s, 0, pat);
        assert forall j: nat :: !OccursAt(s, j, pat) by {
          forall j: nat ensures !OccursAt(s, j, pat) {
            if j > 0 { OccursAtTail(s, j - 1, pat); }
          }
        }
        None
      case Some(i) =>
        OccursAtTail(s, i, pat);
        forall j: nat | j < i + 1 ensures !OccursAt(s, j, pat) {
          if j > 0 { OccursAtTail(s, j - 1, pat); }
        }
        Some(i + 1)
  }

  /** Nothing before the leftmost occurrence contains the pattern. */
  lemma NoOccurrenceBefore(s: string, pat: string, i: nat)
    requires |pat| > 0 && i <= |s|
    requires forall j: nat :: j < i ==> !OccursAt(s, j, pat)
    ensures !Contains(s[..i], pat)
  {
    forall j: nat | OccursAt(s[..i], j, pat) ensures false {
      assert s[..i][j..j + |pat|] == s[j..j + |pat|];
      assert OccursAt(s, j, pat);
    }
  }

  /** Python's `s.split(sep)` for a non-empty separator. */
  function SplitOn(s: string, sep: string): (r: seq<string>)
    requires |sep| > 0
    ensures |r| >= 1
    ensures forall k :: 0 <= k < |r| ==> !Contains(r[k], sep)
    decreases |s|
  {
    match FirstIndexOf(s, sep)
    case None => [s]
    case Some(i) =>
      NoOccurrenceBefore(s, sep, i);
      [s[..i]] + SplitOn(s[i + |sep|..], sep)
  }

  /** Python's `sep.join(parts)`. */
  function Join(parts: seq<string>, sep: string): string {
    if |parts| == 0 then ""
    else if |parts| == 1 then parts[0]
    else parts[0] + sep + Join(parts[1..], sep)
  }

  /** Joining a first piece in front of at least one more. */
  lemma JoinCons(x: string, parts: seq<string>, sep: string)
    requires parts != []
    ensures Join([x] + parts, sep) == x + sep + Join(parts, sep)
  {
    assert ([x] + parts)[1..] == parts;
  }

  /** Splitting and joining again gives back the original string. */
  lemma {:induction false} JoinSplitOn(s: string, sep: string)
    requires |sep| > 0
    ensures Join(SplitOn(s, sep), sep) == s
    decreases |s|
  {
    match FirstIndexOf(s, sep)
    case None =>
    case Some(i) =>
      var rest := s[i + |sep|..];
      var tail := SplitOn(rest, sep);
      JoinSplitOn(rest, sep);
      assert SplitOn(s, sep) == [s[..i]] + tail;
      assert ([s[..i]] + tail)[1..] == tail;
      assert Join(SplitOn(s, sep), sep) == s[..i] + sep + Join(tail, sep);
      assert s[i..i + |sep|] == sep;
      assert s == s[..i] + s[i..i + |sep|] + rest;
  }

  /** `x` can be followed by `sep` without creating an occurrence of `sep`
      other than the one appended: `x` contains no `sep` and does not end
      with a proper prefix of it. */
  predicate Separable(x: string, sep: string) {
    !Contains(x, sep) && forall k :: 0 < k < |sep| ==> !EndsWith(x, sep[..k])
  }

  /** In `x + sep + y`, with `x` separable, the leftmost `sep` is the one
      right after `x`. */
  lemma FirstIndexAfterPiece(x: string, sep: string, y: string)
    requires |sep| > 0 && Separable(x, sep)
    ensures FirstIndexOf(x + sep + y, sep) == Some(|x|)
  {
    var s := x + sep + y;
    assert OccursAt(s, |x|, sep) by {
      assert s[|x|..|x| + |sep|] == sep;
    }
    forall j: nat | j < |x| ensures !OccursAt(s, j, sep) {
      if j + |sep| <= |x| {
        assert s[j..j + |sep|] == x[j..j + |sep|];
        assert !OccursAt(x, j, sep);
      } else {
        var k := |x| - j;
        assert !EndsWith(x, sep[..k]);
        assert s[j..j + k] == x[|x| - k..];
        assert j + |sep| <= |s| ==> s[j..j + |sep|][..k] == s[j..j + k];
      }
    }
    assert Contains(s, sep);
    var r := FirstIndexOf(s, sep);
    assert !(r.value < |x|);
    assert !(|x| < r.value);
  }

  /** Joining separable pieces and splitting again gives back the pieces. */
  lemma {:induction false} SplitOnJoin(parts: seq<string>, sep: string)
    requires |sep| > 0 && |parts| > 0
    requires forall k :: 0 <= k < |parts| ==> Separable(parts[k], sep)
    ensures SplitOn(Join(parts, sep), sep) == parts
  {
    if |parts| == 1 {
      assert FirstIndexOf(parts[0], sep).None?;
    } else {
      var head, tail := parts[0], parts[1..];
      var rest := Join(tail, sep);
      var s := head + sep + rest;
      assert Join(parts, sep) == s;
      assert SplitOn(s, sep) == [head] + SplitOn(rest, sep) by {
        FirstIndexAfterPiece(head, sep, rest);
        assert s[..|head|] == head;
        assert s[|head| + |sep|..] == rest;
      }
      assert forall k :: 0 <= k < |tail| ==> tail[k] == parts[k + 1];
      SplitOnJoin(tail, sep);
      assert parts == [head] + tail;
    }
  }

  /** The index of the last occurrence of `c`, as in `s.rfind(c)`. */
  function LastIndexOfChar(s: string, c: char): (r: Option<nat>)
    ensures r.Some? ==> r.value < |s| && s[r.value] == c
    ensures r.Some? ==> forall j :: r.value < j < |s| ==> s[j] != c
    ensures r.None? ==> forall j :: 0 <= j < |s| ==> s[j] != c
  {
    if s == [] then None
    else if s[|s| - 1] == c then Some(|s| - 1)
    else LastIndexOfChar(s[..|s| - 1], c)
  }

  // ---------------------------------------------------------------------
  // Decimal numbers: `str(n)` and `int(s)`
  // ---------------------------------------------------------------------

  function DigitChar(d: nat): (c: char)
    requires d < 10
    ensures IsDigit(c)
  {
    "0123456789"[d]
  }

  function DigitValue(c: char): (d: nat)
    requires IsDigit(c)
    ensures d < 10
  {
    c as int - '0' as int
  }

  /** The value of a string of decimal digits (0 for the empty string). */
  function ParseDigits(s: string): nat
    requires AllDigits(s)
  {
    if s == [] then 0 else 10 * ParseDigits(s[..|s| - 1]) + DigitValue(s[|s| - 1])
  }

  /** Python's `str(n)` for a natural number. */
  function NatToString(n: nat): (r: string)
    ensures IsDigitString(r)
  {
    if n < 10 then [DigitChar(n)] else NatToString(n / 10) + [DigitChar(n % 10)]
  }

  /** Python's `str(i)` for an integer. */
  function IntToString(i: int): (r: string)
    ensures |r| > 0
    ensures forall k :: 0 <= k < |r| ==> IsDigit(r[k]) || r[k] == '-'
  {
    if i < 0 then "-" + NatToString(-i) else NatToString(i)
  }

  /** Reading back the decimal form of `n` gives `n`. */
  lemma {:induction false} ParseNatToString(n: nat)
    ensures ParseDigits(NatToString(n)) == n
  {
    var s := NatToString(n);
    if n >= 10 {
      ParseNatToString(n / 10);
      assert s[..|s| - 1] == NatToString(n / 10);
    }
  }

  /** Python's `int(s)` on a string: surrounding whitespace, an optional sign
      and at least one decimal digit; anything else raises ValueError (None). */
  function ParseInt(s: string): (r: Option<int>)
    ensures r.Some? ==> |Strip(s)| > 0
  {
    var t := Strip(s);
    if |t| > 0 && (t[0] == '-' || t[0] == '+') then
      if IsDigitString(t[1..]) then
        var v: int := ParseDigits(t[1..]);
        Some(if t[0] == '-' then -v else v)
      else None
    else if IsDigitString(t) then Some(ParseDigits(t))
    else None
  }

  /** `int(str(i)) == i`. */
  lemma ParseIntDigits(d: string)
    requires IsDigitString(d)
    ensures ParseInt(d) == Some(ParseDigits(d))
  {
    assert !IsSpace(d[0]) && !IsSpace(d[|d| - 1]);
    StripUnchanged(d);
  }

  lemma ParseIntNegative(d: string)
    requires IsDigitString(d)
    ensures ParseInt("-" + d) == Some(0 - ParseDigits(d))
  {
    var s := "-" + d;
    assert s[|s| - 1] == d[|d| - 1];
    StripUnchanged(s);
    assert s[1..] == d;
  }

  /** `int(str(n))` for a natural number. */
  lemma ParseNatString(n: nat)
    ensures ParseInt(NatToString(n)) == Some(n)
  {
    ParseIntDigits(NatToString(n));
    ParseNatToString(n);
  }

  /** `int(str(-n))` for a natural number. */
  lemma ParseNegatedNatString(n: nat)
    ensures ParseInt("-" + NatToString(n)) == Some(-(n as int))
  {
    ParseIntNegative(NatToString(n));
    ParseNatToString(n);
  }

  lemma IntToStringRoundTrip(i: int)
    ensures ParseInt(IntToString(i)) == Some(i)
  {
    if i < 0 {
      ParseNegatedNatString(-i);
    } else {
      ParseNatString(i);
    }
  }

  /** `str` is injective on integers. */
  lemma IntToStringInjective(i: int, j: int)
    requires IntToString(i) == IntToString(j)
    ensures i == j
  {
    IntToStringRoundTrip(i);
    IntToStringRoundTrip(j);
  }
}
