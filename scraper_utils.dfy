/**
 * The string and number helpers of `ScraperUtils` and the canonical movie
 * document built by `create_movie_document`.  Every helper is a pure
 * function of its arguments; MD5 is a function-valued parameter.
 */
module ScraperUtils {
  import opened Wrappers
  import opened Text
  import Sequences

  // ---------------------------------------------------------------------
  // clean_text: collapse whitespace runs to one space, then strip
  // ---------------------------------------------------------------------

  /** `re.sub(r'\s+', ' ', s)`: each maximal whitespace run becomes " ". */
  function CollapseSpaces(s: string): string
    decreases |s|
  {
    if s == [] then []
    else if IsSpace(s[0]) then " " + CollapseSpaces(s[LeadingSpaces(s)..])
    else [s[0]] + CollapseSpaces(s[1..])
  }

  /** Every whitespace character is a plain space and is not followed by
      further whitespace. */
  predicate SingleSpaced(s: string) {
    && (forall i :: 0 <= i < |s| && IsSpace(s[i]) ==> s[i] == ' ')
    && (forall i, j | 0 <= i < |s| && 0 <= j < |s| && j == i + 1 :: !IsSpace(s[i]) || !IsSpace(s[j]))
  }

  /** The shape of `clean_text`'s results. */
  predicate IsClean(s: string) {
    SingleSpaced(s) && (s == [] || (!IsSpace(s[0]) && !IsSpace(s[|s| - 1])))
  }

  /** The non-whitespace characters of `s`, in order. */
  function NonSpaceChars(s: string): string {
    if s == [] then [] else (if IsSpace(s[0]) then [] else [s[0]]) + NonSpaceChars(s[1..])
  }

  /** `clean_text`: "" for None or "", otherwise whitespace runs collapsed
      to one space and the ends stripped.  The result has that shape. */
  function CleanText(text: string): (r: string)
    ensures IsClean(r)
  {
    if text == "" then ""
    else
      var c := CollapseSpaces(text);
      CollapseSingleSpaced(c, text);
      StripKeepsSingleSpaced(c);
      Strip(c)
  }

  lemma {:induction false} CollapseStartsWith(s: string)
    requires s != [] && !IsSpace(s[0])
    ensures CollapseSpaces(s) != [] && CollapseSpaces(s)[0] == s[0]
  {
  }

  lemma {:induction false} CollapseSingleSpaced(c: string, s: string)
    requires c == CollapseSpaces(s)
    ensures SingleSpaced(c)
    decreases |s|
  {
    if s == [] {
    } else if IsSpace(s[0]) {
      var t := s[LeadingSpaces(s)..];
      CollapseSingleSpaced(CollapseSpaces(t), t);
      if t != [] {
        CollapseStartsWith(t);
      }
      assert t == [] ==> CollapseSpaces(t) == [];
      forall i | 0 <= i < |c| && IsSpace(c[i])
        ensures c[i] == ' ' && (i + 1 == |c| || !IsSpace(c[i + 1]))
      {
        if i > 0 {
          assert c[i] == CollapseSpaces(t)[i - 1];
        }
      }
    } else {
      var t := s[1..];
      CollapseSingleSpaced(CollapseSpaces(t), t);
      forall i | 0 <= i < |c| && IsSpace(c[i])
        ensures c[i] == ' ' && (i + 1 == |c| || !IsSpace(c[i + 1]))
      {
        assert i > 0;
        assert c[i] == CollapseSpaces(t)[i - 1];
      }
    }
  }

  lemma StripKeepsSingleSpaced(s: string)
    requires SingleSpaced(s)
    ensures SingleSpaced(Strip(s))
  {
    var r := Strip(s);
    var a := LeadingSpaces(s);
    forall i | 0 <= i < |r| && IsSpace(r[i])
      ensures r[i] == ' ' && (i + 1 == |r| || !IsSpace(r[i + 1]))
    {
      assert r[i] == s[a + i];
      if i + 1 < |r| {
        assert r[i + 1] == s[a + i + 1];
      }
    }
  }

  /** A single-spaced string has nothing to collapse. */
  lemma {:induction false} CollapseUnchanged(s: string)
    requires SingleSpaced(s)
    ensures CollapseSpaces(s) == s
    decreases |s|
  {
    if s != [] {
      var t := s[1..];
      assert SingleSpaced(t) by {
        forall i | 0 <= i < |t| && IsSpace(t[i])
          ensures t[i] == ' ' && (i + 1 == |t| || !IsSpace(t[i + 1]))
        {
          assert t[i] == s[i + 1];
        }
      }
      CollapseUnchanged(t);
      if IsSpace(s[0]) {
        assert |s| == 1 || !IsSpace(s[1]);
        assert LeadingSpaces(s) == 1;
      }
    }
  }

  /** A leading word is copied through unchanged by the collapse. */
  lemma {:induction false} CollapseWord(t: string)
    ensures CollapseSpaces(t) == t[..WordLength(t)] + CollapseSpaces(t[WordLength(t)..])
    decreases |t|
  {
    if t == [] || IsSpace(t[0]) {
      assert t[0..] == t;
    } else {
      var m := WordLength(t[1..]);
      CollapseWord(t[1..]);
      assert t[..1 + m] == [t[0]] + t[1..][..m];
      assert t[1 + m..] == t[1..][m..];
    }
  }

  /** Leading whitespace changes neither the cleaned text nor the words. */
  lemma StripCollapseSkip(s: string)
    requires LeadingSpaces(s) < |s|
    ensures Strip(CollapseSpaces(s)) == Strip(CollapseSpaces(s[LeadingSpaces(s)..]))
    ensures Words(s) == Words(s[LeadingSpaces(s)..])
  {
    var t := s[LeadingSpaces(s)..];
    WordsSkipSpaces(s);
    CollapseStartsWith(t);
    if LeadingSpaces(s) > 0 {
      StripConsSpace(CollapseSpaces(t));
    } else {
      assert t == s;
    }
  }

  /** A word followed by whitespace only cleans to the word. */
  lemma StripLastWord(w: string, u: string)
    requires w != [] && forall i :: 0 <= i < |w| ==> !IsSpace(w[i])
    requires LeadingSpaces(u) == |u|
    ensures Strip(w + CollapseSpaces(u)) == w
  {
    if u == [] {
      StripUnchanged(w);
    } else {
      assert CollapseSpaces(u) == " " by {
        assert u[LeadingSpaces(u)..] == [];
      }
      StripWordSpace(w);
    }
  }

  /** A word followed by one space strips to the word. */
  lemma StripWordSpace(w: string)
    requires w != [] && forall i :: 0 <= i < |w| ==> !IsSpace(w[i])
    ensures Strip(w + " ") == w
  {
    var s := w + " ";
    assert LeadingSpaces(s) == 0 && s[0..] == s;
    assert s[..|s| - 1] == w;
    assert TrailingSpaces(w) == 0;
    assert TrailingSpaces(s) == 1;
  }

  /** A word, a whitespace run and a further text beginning with a word
      clean to the word, one space and the cleaned rest. */
  lemma StripWordThenRest(w: string, u: string)
    requires w != [] && !IsSpace(w[0])
    requires u != [] && IsSpace(u[0]) && LeadingSpaces(u) < |u|
    ensures Strip(w + CollapseSpaces(u)) == (w + " ") + Strip(CollapseSpaces(u[LeadingSpaces(u)..]))
  {
    var v := u[LeadingSpaces(u)..];
    CollapseAfterWord(w, u);
    CollapseStartsWith(v);
    StripPrefix(w + " ", CollapseSpaces(v));
  }

  /** A whitespace run after a word collapses to one space. */
  lemma CollapseAfterWord(w: string, u: string)
    requires u != [] && IsSpace(u[0])
    ensures w + CollapseSpaces(u) == (w + " ") + CollapseSpaces(u[LeadingSpaces(u)..])
  {
  }

  /** Each internal whitespace run of `s` becomes exactly one space between
      consecutive words: the collapsed and stripped text is the words of `s`
      joined by " ". */
  lemma {:induction false} StripCollapseWords(s: string)
    ensures Strip(CollapseSpaces(s)) == Join(Words(s), " ")
    decreases |s|, 1
  {
    var a := LeadingSpaces(s);
    if a == |s| {
      if s != [] {
        assert s[a..] == [];
        assert CollapseSpaces(s) == " ";
      }
    } else {
      StripCollapseSkip(s);
      StripCollapseFromWord(s[a..]);
    }
  }

  /** The case of `StripCollapseWords` where the text begins with a word. */
  lemma {:induction false} StripCollapseFromWord(t: string)
    requires t != [] && !IsSpace(t[0])
    ensures Strip(CollapseSpaces(t)) == Join(Words(t), " ")
    decreases |t|, 0
  {
    var n := WordLength(t);
    var w := t[..n];
    var u := t[n..];
    CollapseWord(t);
    WordsFromWord(t);
    if LeadingSpaces(u) == |u| {
      StripLastWord(w, u);
      assert Words(u) == [];
    } else {
      var v := u[LeadingSpaces(u)..];
      StripWordThenRest(w, u);
      StripCollapseWords(v);
      WordsSkipSpaces(u);
      JoinCons(w, Words(v), " ");
    }
  }

  /** A text that begins with a word splits into that word and the words of
      the rest. */
  lemma WordsFromWord(t: string)
    requires t != [] && !IsSpace(t[0])
    ensures Words(t) == [t[..WordLength(t)]] + Words(t[WordLength(t)..])
  {
    assert LeadingSpaces(t) == 0 && t[0..] == t;
  }

  /** `clean_text` gives the words of the text (Python's `text.split()`)
      joined by single spaces. */
  lemma CleanTextWords(s: string)
    ensures CleanText(s) == Join(Words(s), " ")
  {
    StripCollapseWords(s);
  }

  /** `clean_text` is idempotent. */
  lemma CleanTextIdempotent(s: string)
    ensures CleanText(CleanText(s)) == CleanText(s)
  {
    var r := CleanText(s);
    if r != "" {
      CollapseUnchanged(r);
      StripUnchanged(r);
    }
  }

  lemma {:induction false} NonSpaceAppend(a: string, b: string)
    ensures NonSpaceChars(a + b) == NonSpaceChars(a) + NonSpaceChars(b)
  {
    if a == [] {
      assert a + b == b;
    } else {
      assert (a + b)[0] == a[0];
      assert (a + b)[1..] == a[1..] + b;
      NonSpaceAppend(a[1..], b);
    }
  }

  lemma {:induction false} NonSpaceOfSpaces(s: string)
    requires forall i :: 0 <= i < |s| ==> IsSpace(s[i])
    ensures NonSpaceChars(s) == []
  {
    if s != [] {
      NonSpaceOfSpaces(s[1..]);
    }
  }

  lemma {:induction false} NonSpaceCollapse(s: string)
    ensures NonSpaceChars(CollapseSpaces(s)) == NonSpaceChars(s)
    decreases |s|
  {
    if s == [] {
    } else if IsSpace(s[0]) {
      var n := LeadingSpaces(s);
      var t := s[n..];
      NonSpaceCollapse(t);
      NonSpaceAppend(" ", CollapseSpaces(t));
      assert s == s[..n] + t;
      NonSpaceAppend(s[..n], t);
      NonSpaceOfSpaces(s[..n]);
    } else {
      NonSpaceCollapse(s[1..]);
      NonSpaceAppend([s[0]], CollapseSpaces(s[1..]));
    }
  }

  lemma NonSpaceStrip(s: string)
    ensures NonSpaceChars(Strip(s)) == NonSpaceChars(s)
  {
    var t := s[LeadingSpaces(s)..];
    NonSpaceDropFront(s, LeadingSpaces(s));
    NonSpaceDropBack(t, |t| - TrailingSpaces(t));
  }

  /** Dropping trailing whitespace keeps the non-whitespace characters. */
  lemma NonSpaceDropBack(t: string, n: nat)
    requires n <= |t| && forall i :: n <= i < |t| ==> IsSpace(t[i])
    ensures NonSpaceChars(t[..n]) == NonSpaceChars(t)
  {
    assert t == t[..n] + t[n..];
    NonSpaceAppendSpaces(t[..n], t[n..]);
  }

  /** Dropping leading whitespace keeps the non-whitespace characters. */
  lemma NonSpaceDropFront(s: string, a: nat)
    requires a <= |s| && forall i :: 0 <= i < a ==> IsSpace(s[i])
    ensures NonSpaceChars(s[a..]) == NonSpaceChars(s)
  {
    assert s == s[..a] + s[a..];
    NonSpaceAppend(s[..a], s[a..]);
    NonSpaceOfSpaces(s[..a]);
  }

  /** Appending whitespace adds no non-whitespace characters. */
  lemma NonSpaceAppendSpaces(front: string, back: string)
    requires forall i :: 0 <= i < |back| ==> IsSpace(back[i])
    ensures NonSpaceChars(front + back) == NonSpaceChars(front)
  {
    NonSpaceAppend(front, back);
    NonSpaceOfSpaces(back);
    assert NonSpaceChars(front) + [] == NonSpaceChars(front);
  }

  /** `clean_text` keeps every non-whitespace character, in order, and only
      those; so it returns "" exactly for all-whitespace input. */
  lemma CleanTextKeepsContent(s: string)
    ensures NonSpaceChars(CleanText(s)) == NonSpaceChars(s)
    ensures CleanText(s) == "" <==> NonSpaceChars(s) == ""
  {
    if s != "" {
      NonSpaceCollapse(s);
      NonSpaceStrip(CollapseSpaces(s));
    }
    var r := CleanText(s);
    if r != "" {
      NonSpaceAppend([r[0]], r[1..]);
      assert r == [r[0]] + r[1..];
    }
  }

  // ---------------------------------------------------------------------
  // extract_year: leftmost match of (19|20)\d{2}
  // ---------------------------------------------------------------------

  predicate YearAt(s: string, i: nat) {
    i + 4 <= |s|
    && ((s[i] == '1' && s[i + 1] == '9') || (s[i] == '2' && s[i + 1] == '0'))
    && IsDigit(s[i + 2]) && IsDigit(s[i + 3])
  }

  /** The leftmost position at or after `from` where a year matches. */
  function FirstYearFrom(s: string, from: nat): (r: Option<nat>)
    requires from <= |s|
    ensures r.Some? ==> from <= r.value && YearAt(s, r.value)
    ensures r.Some? ==> forall j: nat :: from <= j < r.value ==> !YearAt(s, j)
    ensures r.None? ==> forall j: nat :: from <= j ==> !YearAt(s, j)
    decreases |s| - from
  {
    if YearAt(s, from) then Some(from)
    else if from == |s| then None
    else FirstYearFrom(s, from + 1)
  }

  /** The value of a four-digit string, digit by digit. */
  lemma ParseFourDigits(y: string)
    requires |y| == 4 && AllDigits(y)
    ensures ParseDigits(y) == 1000 * DigitValue(y[0]) + 100 * DigitValue(y[1]) + 10 * DigitValue(y[2]) + DigitValue(y[3])
  {
    assert y[..4] == y;
    assert y[..3][..2] == y[..2];
    assert y[..2][..1] == y[..1];
    assert y[..1][..0] == [];
    assert ParseDigits(y[..1]) == DigitValue(y[0]);
    assert ParseDigits(y[..2]) == 10 * DigitValue(y[0]) + DigitValue(y[1]);
    assert ParseDigits(y[..3]) == 100 * DigitValue(y[0]) + 10 * DigitValue(y[1]) + DigitValue(y[2]);
  }

  lemma YearValueInRange(s: string, i: nat)
    requires YearAt(s, i)
    ensures AllDigits(s[i..i + 4])
    ensures 1900 <= ParseDigits(s[i..i + 4]) <= 2099
  {
    ParseFourDigits(s[i..i + 4]);
  }

  /** `extract_year`: the leftmost 19xx/20xx, if any; always in 1900..2099. */
  function ExtractYear(text: string): (r: Option<int>)
    ensures r.None? <==> forall j: nat :: !YearAt(text, j)
    ensures r.Some? ==> 1900 <= r.value <= 2099
    ensures r.Some? ==> exists i: nat :: YearAt(text, i) && r.value == ParseDigits(text[i..i + 4])
                                       && forall j: nat :: j < i ==> !YearAt(text, j)
  {
    match FirstYearFrom(text, 0)
    case None => None
    case Some(i) =>
      YearValueInRange(text, i);
      Some(ParseDigits(text[i..i + 4]))
  }

  /** A year written on its own is read back. */
  lemma ExtractYearOfYear(y: int)
    requires 1900 <= y <= 2099
    ensures ExtractYear(IntToString(y)) == Some(y)
  {
    var s := IntToString(y);
    ParseNatToString(y);
    YearTextMatches(y);
    assert s[0..4] == s;
    assert FirstYearFrom(s, 0) == Some(0);
  }

  /** The decimal text of a year in 1900..2099 matches at its start. */
  lemma YearTextMatches(y: nat)
    requires 1900 <= y <= 2099
    ensures |NatToString(y)| == 4 && YearAt(NatToString(y), 0)
  {
    var century := NatToString(y / 100);
    if y < 2000 {
      assert y / 100 == 19;
      assert century == "19";
    } else {
      assert y / 100 == 20;
      assert century == "20";
    }
    assert NatToString(y / 10) == century + [DigitChar(y / 10 % 10)] by {
      assert y / 10 / 10 == y / 100;
    }
    assert NatToString(y) == NatToString(y / 10) + [DigitChar(y % 10)];
  }

  // ---------------------------------------------------------------------
  // normalize_rating
  // ---------------------------------------------------------------------

  /** `round(x, 1)` on exact reals: `x` rounded to one decimal, halves upwards: a whole number of tenths
      within half a tenth of `x`. */
  function RoundTenth(x: real): (r: real)
    ensures x - 0.05 < r <= x + 0.05
    ensures (r * 10.0).Floor as real == r * 10.0
  {
    var n := (x * 10.0 + 0.5).Floor;
    assert n as real <= x * 10.0 + 0.5 < n as real + 1.0;
    assert (n as real / 10.0) * 10.0 == n as real;
    n as real / 10.0
  }

  /** `normalize_rating`: 0.0 for a zero scale, else rating/scale*10 to one
      decimal.  A rating within [0, scale] lands within [0, 10]. */
  function NormalizeRating(rating: real, maxRating: real): (r: real)
    ensures maxRating == 0.0 ==> r == 0.0
    ensures maxRating != 0.0 ==>
      rating / maxRating * 10.0 - 0.05 < r <= rating / maxRating * 10.0 + 0.05
    ensures (r * 10.0).Floor as real == r * 10.0
    ensures 0.0 <= rating <= maxRating && maxRating != 0.0 ==> 0.0 <= r <= 10.0
  {
    if maxRating == 0.0 then 0.0
    else
      var x := rating / maxRating * 10.0;
      assert 0.0 <= rating <= maxRating ==> 0.0 <= x <= 10.0 by {
        if 0.0 <= rating <= maxRating {
          RatioAtMostOne(rating, maxRating);
        }
      }
      RoundTenth(x)
  }

  lemma RatioAtMostOne(a: real, b: real)
    requires 0.0 <= a <= b && b != 0.0
    ensures 0.0 <= a / b <= 1.0
  {
    assert b > 0.0;
    assert (a / b) * b == a;
  }

  /** Scaling rating and scale by the same positive factor changes nothing. */
  lemma NormalizeRatingScaleInvariant(rating: real, maxRating: real, k: real)
    requires k > 0.0
    ensures NormalizeRating(rating * k, maxRating * k) == NormalizeRating(rating, maxRating)
  {
    if maxRating != 0.0 {
      RatioCancel(rating, maxRating, k);
    }
  }

  /** A common positive factor cancels in a quotient. */
  lemma RatioCancel(a: real, b: real, k: real)
    requires b != 0.0 && k > 0.0
    ensures b * k != 0.0 && (a * k) / (b * k) == a / b
  {
    var q := a / b;
    assert q * b == a;
    assert q * (b * k) == a * k by {
      assert q * (b * k) == (q * b) * k;
    }
    assert b * k != 0.0;
  }

  // ---------------------------------------------------------------------
  // generate_id
  // ---------------------------------------------------------------------

  predicate IsHexChar(c: char) {
    '0' <= c <= '9' || 'a' <= c <= 'f'
  }

  /** What `hashlib.md5(t.encode()).hexdigest()` returns: 32 lower-case hex
      characters. */
  ghost predicate IsMd5Hex(md5: string -> string) {
    forall t :: |md5(t)| == 32 && forall i :: 0 <= i < 32 ==> IsHexChar(md5(t)[i])
  }

  /** `generate_id`: `prefix_` followed by the first 12 hex characters of the
      digest, or just those 12 characters when the prefix is empty. */
  function GenerateId(text: string, prefix: string, md5: string -> string): (r: string)
    requires IsMd5Hex(md5)
    ensures |r| == (if prefix == "" then 12 else |prefix| + 13)
    ensures prefix != "" ==> StartsWith(r, prefix + "_")
    ensures r[|r| - 12..] == md5(text)[..12]
    ensures forall i :: |r| - 12 <= i < |r| ==> IsHexChar(r[i])
  {
    var hex := md5(text)[..12];
    if prefix != "" then prefix + "_" + hex else hex
  }

  // ---------------------------------------------------------------------
  // extract_number: first run of [\d,]+ with commas removed
  // ---------------------------------------------------------------------

  predicate IsNumberChar(c: char) {
    IsDigit(c) || c == ','
  }

  /** Length of the run of digits and commas at the start of `s`. */
  function NumberRunLength(s: string): (n: nat)
    ensures n <= |s|
    ensures forall i :: 0 <= i < n ==> IsNumberChar(s[i])
    ensures n == |s| || !IsNumberChar(s[n])
  {
    if s == [] || !IsNumberChar(s[0]) then 0 else 1 + NumberRunLength(s[1..])
  }

  /** Index of the leftmost digit or comma, |s| when there is none. */
  function FirstNumberIndex(s: string): (i: nat)
    ensures i <= |s|
    ensures forall j :: 0 <= j < i ==> !IsNumberChar(s[j])
    ensures i == |s| || IsNumberChar(s[i])
  {
    if s == [] || IsNumberChar(s[0]) then 0 else 1 + FirstNumberIndex(s[1..])
  }

  /** The text `re.search(r'[\d,]+', s)` matches: the leftmost maximal run
      of digits and commas ("" when there is none).  It starts at the first
      digit or comma and cannot be extended to the right. */
  function FirstNumberRun(s: string): (r: string)
    ensures forall i :: 0 <= i < |r| ==> IsNumberChar(r[i])
    ensures r == [] <==> forall i :: 0 <= i < |s| ==> !IsNumberChar(s[i])
    ensures FirstNumberIndex(s) + |r| <= |s|
    ensures r == s[FirstNumberIndex(s)..FirstNumberIndex(s) + |r|]
    ensures FirstNumberIndex(s) + |r| == |s| || !IsNumberChar(s[FirstNumberIndex(s) + |r|])
  {
    var i := FirstNumberIndex(s);
    var r := s[i..i + NumberRunLength(s[i..])];
    r
  }

  /** Removing the commas from a run of digits and commas leaves digits. */
  lemma RemoveCommasDigits(run: string)
    requires forall i :: 0 <= i < |run| ==> IsNumberChar(run[i])
    ensures AllDigits(RemoveChar(run, ','))
  {
    var r := RemoveChar(run, ',');
    forall k | 0 <= k < |r| ensures IsDigit(r[k]) {
      assert r[k] in run;
    }
  }

  /** `extract_number`: the value of the first run of digits and commas
      with its commas removed, None when there is no run or the run holds
      only commas. */
  function ExtractNumber(text: string): (r: Option<int>)
    ensures r.Some? ==> r.value >= 0
    ensures r.Some? <==> FirstNumberRun(text) != [] && RemoveChar(FirstNumberRun(text), ',') != []
  {
    var run := FirstNumberRun(text);
    if run == [] then None
    else
      var digits := RemoveChar(run, ',');
      RemoveCommasDigits(run);
      if digits == [] then None else Some(ParseDigits(digits))
  }

  /** The value of digits followed by a group of three: the value of the
      first part times a thousand, plus the group's. */
  lemma ParseDigitsGroup(a: string, g: string)
    requires AllDigits(a) && AllDigits(g) && |g| == 3
    ensures AllDigits(a + g)
    ensures ParseDigits(a + g) == ParseDigits(a) * 1000 + ParseDigits(g)
  {
    var s := a + g;
    var d0, d1, d2 := DigitValue(g[0]), DigitValue(g[1]), DigitValue(g[2]);
    assert s[..|s| - 1] == a + g[..2] && s[|s| - 1] == g[2];
    assert (a + g[..2])[..|a| + 1] == a + g[..1] && (a + g[..2])[|a| + 1] == g[1];
    assert (a + g[..1])[..|a|] == a && (a + g[..1])[|a|] == g[0];
    assert ParseDigits(a + g[..1]) == 10 * ParseDigits(a) + d0;
    assert ParseDigits(a + g[..2]) == 10 * ParseDigits(a + g[..1]) + d1;
    assert ParseDigits(s) == 10 * ParseDigits(a + g[..2]) + d2;
    assert g[..2][..1] == g[..1] && g[..1][..0] == [] && g[..3] == g;
    assert ParseDigits(g[..1]) == d0;
    assert ParseDigits(g[..2]) == 10 * d0 + d1;
    assert ParseDigits(g) == 10 * ParseDigits(g[..2]) + d2;
  }

  /** A run of digits and commas after text with neither, and followed by
      something other than a digit or comma, is the first number run. */
  lemma FirstNumberRunOf(prefix: string, d: string, tail: string)
    requires forall i :: 0 <= i < |prefix| ==> !IsNumberChar(prefix[i])
    requires d != [] && forall i :: 0 <= i < |d| ==> IsNumberChar(d[i])
    requires tail == [] || !IsNumberChar(tail[0])
    ensures FirstNumberRun(prefix + d + tail) == d
  {
    var s := prefix + d + tail;
    assert forall j :: 0 <= j < |prefix| ==> s[j] == prefix[j];
    assert forall j :: 0 <= j < |d| ==> s[|prefix| + j] == d[j];
    assert tail != [] ==> s[|prefix| + |d|] == tail[0];
    assert IsNumberChar(s[|prefix|]);
    assert FirstNumberIndex(s) == |prefix|;
  }

  /** A number written in decimal after text with no digit or comma, and
      followed by something other than a digit or comma, is read back:
      "Rated 1234 times" gives 1234. */
  lemma ExtractNumberOfNumber(prefix: string, n: nat, tail: string)
    requires forall i :: 0 <= i < |prefix| ==> !IsNumberChar(prefix[i])
    requires tail == [] || !IsNumberChar(tail[0])
    ensures ExtractNumber(prefix + NatToString(n) + tail) == Some(n)
  {
    var d := NatToString(n);
    FirstNumberRunOf(prefix, d, tail);
    RemoveCharAbsent(d, ',');
    ParseNatToString(n);
  }

  /** A number run placed between text with no digit or comma and a
      non-digit, non-comma is read as its digits with the commas removed. */
  lemma ExtractNumberOfRun(prefix: string, d: string, tail: string)
    requires forall i :: 0 <= i < |prefix| ==> !IsNumberChar(prefix[i])
    requires d != [] && forall i :: 0 <= i < |d| ==> IsNumberChar(d[i])
    requires tail == [] || !IsNumberChar(tail[0])
    ensures AllDigits(RemoveChar(d, ','))
    ensures ExtractNumber(prefix + d + tail)
      == if RemoveChar(d, ',') == [] then None else Some(ParseDigits(RemoveChar(d, ',')))
  {
    FirstNumberRunOf(prefix, d, tail);
    RemoveCommasDigits(d);
  }

  /** Digits, a comma and more digits form a number run. */
  lemma GroupedRun(digits: string, group: string)
    requires AllDigits(digits) && AllDigits(group)
    ensures var d := digits + "," + group; forall j :: 0 <= j < |d| ==> IsNumberChar(d[j])
  {
    var d := digits + "," + group;
    forall j | 0 <= j < |d| ensures IsNumberChar(d[j]) {
      if j < |digits| { assert d[j] == digits[j]; }
      else if j > |digits| { assert d[j] == group[j - |digits| - 1]; }
    }
  }

  /** Removing the comma between two digit strings joins them. */
  lemma RemoveGroupComma(digits: string, group: string)
    requires AllDigits(digits) && AllDigits(group)
    ensures RemoveChar(digits + "," + group, ',') == digits + group
  {
    RemoveCharConcat(digits + ",", group, ',');
    RemoveCharConcat(digits, ",", ',');
    RemoveCharAbsent(digits, ',');
    RemoveCharAbsent(group, ',');
    assert RemoveChar(",", ',') == [];
  }

  /** A number written with a thousands comma is read without it:
      "1,234 reviews" gives 1234. */
  lemma ExtractNumberOfGrouped(prefix: string, n: nat, group: string, tail: string)
    requires forall i :: 0 <= i < |prefix| ==> !IsNumberChar(prefix[i])
    requires tail == [] || !IsNumberChar(tail[0])
    requires |group| == 3 && AllDigits(group)
    ensures ExtractNumber(prefix + (NatToString(n) + "," + group) + tail) == Some(n * 1000 + ParseDigits(group))
  {
    var digits := NatToString(n);
    var d := digits + "," + group;
    GroupedRun(digits, group);
    RemoveGroupComma(digits, group);
    ExtractNumberOfRun(prefix, d, tail);
    ParseDigitsGroup(digits, group);
    ParseNatToString(n);
    var value := ParseDigits(digits + group);
    assert value == n * 1000 + ParseDigits(group);
    assert ExtractNumber(prefix + d + tail) == Some(value);
  }

  // ---------------------------------------------------------------------
  // split_list
  // ---------------------------------------------------------------------

  /** Whether a piece is more than whitespace. */
  predicate NonBlank(p: string) {
    Strip(p) != ""
  }

  /** `[p.strip() for p in pieces if p.strip()]`: the stripped pieces that
      are not blank, in order. */
  function StripNonEmpty(pieces: seq<string>): seq<string>
  {
    if pieces == [] then []
    else
      var p := Strip(pieces[0]);
      (if p != "" then [p] else []) + StripNonEmpty(pieces[1..])
  }

  /** The comprehension keeps exactly the stripped non-blank pieces, in
      order: it is the filter-and-map of the pieces. */
  lemma {:induction false} StripNonEmptyFilters(pieces: seq<string>)
    ensures StripNonEmpty(pieces) == Sequences.FilterMap(pieces, NonBlank, Strip)
    decreases |pieces|
  {
    if pieces != [] {
      StripNonEmptyFilters(pieces[1..]);
      assert pieces == [pieces[0]] + pieces[1..];
      Sequences.FilterMapCons(pieces[0], pieces[1..], NonBlank, Strip);
    }
  }

  lemma NoContainsInSubstring(s: string, a: nat, b: nat, pat: string)
    requires a <= b <= |s|
    requires !Contains(s, pat)
    ensures !Contains(s[a..b], pat)
  {
    var t := s[a..b];
    forall j: nat | j <= |t| && OccursAt(t, j, pat) ensures false {
      assert j + |pat| <= |t|;
      var u, v := t[j..j + |pat|], s[a + j..a + j + |pat|];
      assert forall k :: 0 <= k < |pat| ==> u[k] == v[k];
      assert u == v;
      assert OccursAt(s, a + j, pat);
    }
  }

  /** A piece `split_list` keeps: non-empty, stripped, without the delimiter. */
  predicate CleanPiece(x: string, delimiter: string) {
    x != "" && Strip(x) == x && !Contains(x, delimiter)
  }

  lemma {:induction false} StripNonEmptyShape(pieces: seq<string>, delimiter: string)
    requires forall k :: 0 <= k < |pieces| ==> !Contains(pieces[k], delimiter)
    ensures forall k :: 0 <= k < |StripNonEmpty(pieces)| ==> CleanPiece(StripNonEmpty(pieces)[k], delimiter)
  {
    if pieces != [] {
      var rest := StripNonEmpty(pieces[1..]);
      StripNonEmptyShape(pieces[1..], delimiter);
      var p := Strip(pieces[0]);
      var head: seq<string> := if p != "" then [p] else [];
      assert StripNonEmpty(pieces) == head + rest;
      if p != "" {
        var a := LeadingSpaces(pieces[0]);
        NoContainsInSubstring(pieces[0], a, a + |p|, delimiter);
        StripUnchanged(p);
        assert CleanPiece(p, delimiter);
      }
      forall k | 0 <= k < |head + rest| ensures CleanPiece((head + rest)[k], delimiter) {
        if k >= |head| {
          assert (head + rest)[k] == rest[k - |head|];
        }
      }
    }
  }

  /** `split_list`: [] for "", otherwise the stripped non-empty pieces
      between delimiters; none is empty, padded or holds the delimiter. */
  function SplitList(text: string, delimiter: string): (r: seq<string>)
    requires |delimiter| > 0
    ensures text == "" ==> r == []
    ensures forall k :: 0 <= k < |r| ==> r[k] != "" && Strip(r[k]) == r[k] && !Contains(r[k], delimiter)
  {
    if text == "" then []
    else
      StripNonEmptyShape(SplitOn(text, delimiter), delimiter);
      StripNonEmpty(SplitOn(text, delimiter))
  }

  lemma {:induction false} StripNonEmptyOfClean(items: seq<string>)
    requires forall k :: 0 <= k < |items| ==> items[k] != "" && Strip(items[k]) == items[k]
    ensures StripNonEmpty(items) == items
  {
    if items != [] {
      StripNonEmptyOfClean(items[1..]);
      assert items == [items[0]] + items[1..];
    }
  }

  /** Joining clean items with the delimiter and splitting again with
      `split_list` gives back the items. */
  lemma SplitListJoin(items: seq<string>, delimiter: string)
    requires |delimiter| > 0 && |items| > 0
    requires forall k :: 0 <= k < |items| ==>
      items[k] != "" && Strip(items[k]) == items[k] && Separable(items[k], delimiter)
    ensures SplitList(Join(items, delimiter), delimiter) == items
  {
    SplitOnJoin(items, delimiter);
    StripNonEmptyOfClean(items);
    assert Join(items, delimiter) != "" by {
      JoinStartsWithFirst(items, delimiter);
    }
  }

  lemma JoinStartsWithFirst(items: seq<string>, sep: string)
    requires |items| > 0
    ensures StartsWith(Join(items, sep), items[0])
  {
    if |items| > 1 {
      assert Join(items, sep) == items[0] + (sep + Join(items[1..], sep));
    }
  }

  // ---------------------------------------------------------------------
  // truncate_text
  // ---------------------------------------------------------------------

  /** `truncate_text`: unchanged when short enough, otherwise the first
      `maxLength` characters cut back to their last space, plus "...". */
  function TruncateText(text: string, maxLength: nat): (r: string)
    ensures |text| <= maxLength ==> r == text
    ensures |text| > maxLength ==>
      && |r| <= maxLength + 3
      && EndsWith(r, "...")
      && StartsWith(text, r[..|r| - 3])
      && var body := r[..|r| - 3];
         (|body| == maxLength && forall i :: 0 <= i < maxLength ==> text[i] != ' ')
         || (|body| < maxLength && text[|body|] == ' '
             && forall i :: |body| < i < maxLength ==> text[i] != ' ')
  {
    if |text| <= maxLength then text
    else
      var head := text[..maxLength];
      var body := match LastIndexOfChar(head, ' ')
        case None => head
        case Some(k) => head[..k];
      assert body + "..." == body + "..." && (body + "...")[..|body|] == body;
      body + "..."
  }

  // ---------------------------------------------------------------------
  // create_movie_document
  // ---------------------------------------------------------------------

  /** The canonical document every scraper emits. */
  datatype MovieDocument = MovieDocument(
    id: string,
    title: string,
    year: int,
    site: string,
    url: string,
    rating: Option<real>,
    genres: seq<string>,
    directors: seq<string>,
    cast: seq<string>,
    plot: string,
    reviews: string,
    numReviews: Option<int>)

  /** The text hashed into a document id: "{title}_{year}_{site}". */
  function IdText(title: string, year: int, site: string): string {
    title + "_" + IntToString(year) + "_" + site
  }

  /** `create_movie_document`: the id is derived from title, year and site;
      absent lists become []; every other argument is passed through. */
  function CreateMovieDocument(
    title: string, year: int, site: string, url: string, rating: Option<real>,
    genres: Option<seq<string>>, directors: Option<seq<string>>, cast: Option<seq<string>>,
    plot: string, reviews: string, numReviews: Option<int>,
    md5: string -> string): (d: MovieDocument)
    requires IsMd5Hex(md5)
    ensures d.id == GenerateId(IdText(title, year, site), site, md5)
    ensures site != "" ==> StartsWith(d.id, site + "_") && |d.id| == |site| + 13
    ensures d.title == title && d.year == year && d.site == site && d.url == url && d.rating == rating
    ensures d.genres == genres.GetOr([]) && d.directors == directors.GetOr([]) && d.cast == cast.GetOr([])
    ensures d.plot == plot && d.reviews == reviews && d.numReviews == numReviews
  {
    MovieDocument(
      GenerateId(IdText(title, year, site), site, md5),
      title, year, site, url, rating,
      genres.GetOr([]), directors.GetOr([]), cast.GetOr([]),
      plot, reviews, numReviews)
  }
}
