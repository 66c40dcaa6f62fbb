/** String helpers with Python's meaning: whitespace as `str.isspace`
    defines it, `str.split()` with no separator, slicing, ASCII lower-casing
    and decimal rendering of counts. */
module Text {

  /** Python's `str.isspace`, listed by code point. */
  predicate IsSpace(c: char) {
    var n := c as int;
    || (9 <= n <= 13) || (28 <= n <= 32) || n == 0x85 || n == 0xA0 || n == 0x1680
    || (0x2000 <= n <= 0x200A) || n == 0x2028 || n == 0x2029 || n == 0x202F
    || n == 0x205F || n == 0x3000
  }

  /** `not s.strip()`: nothing but whitespace is left. */
  predicate Blank(s: string) {
    forall i :: 0 <= i < |s| ==> IsSpace(s[i])
  }

  predicate StartsWith(s: string, p: string) {
    |p| <= |s| && s[..|p|] == p
  }

  predicate EndsWith(s: string, p: string) {
    |p| <= |s| && s[|s| - |p|..] == p
  }

  function LowerChar(c: char): char {
    if 'A' <= c <= 'Z' then (c as int + 32) as char else c
  }

  /** `s.lower()` restricted to ASCII letters. */
  function Lower(s: string): (r: string)
    ensures |r| == |s|
    ensures forall i :: 0 <= i < |s| ==> r[i] == LowerChar(s[i])
  {
    seq(|s|, i requires 0 <= i < |s| => LowerChar(s[i]))
  }

  /** Lower-casing twice is lower-casing once. */
  lemma LowerIdempotent(s: string)
    ensures Lower(Lower(s)) == Lower(s)
  {
    assert forall i :: 0 <= i < |s| ==> LowerChar(LowerChar(s[i])) == LowerChar(s[i]);
  }

  function Min(a: int, b: int): int {
    if a <= b then a else b
  }

  /** `s[:n]`: the first `n` characters, or all of `s` when it is shorter. */
  function Take<T>(s: seq<T>, n: nat): (r: seq<T>)
    ensures r <= s
    ensures |r| == Min(n, |s|)
  {
    if |s| <= n then s else s[..n]
  }

  // ---------------------------------------------------------------------
  // Decimal rendering, as an f-string renders a non-negative int

  predicate IsDigit(c: char) {
    '0' <= c <= '9'
  }

  function DigitChar(d: nat): char
    requires d < 10
  {
    ('0' as int + d) as char
  }

  function Decimal(n: nat): (r: string)
    ensures |r| > 0
    ensures forall i :: 0 <= i < |r| ==> IsDigit(r[i])
    ensures r[0] == '0' ==> n == 0
  {
    if n < 10 then [DigitChar(n)] else Decimal(n / 10) + [DigitChar(n % 10)]
  }

  function ParseDecimal(s: string): nat
    requires forall i :: 0 <= i < |s| ==> IsDigit(s[i])
  {
    if |s| == 0 then 0
    else 10 * ParseDecimal(s[..|s| - 1]) + DigitValue(s[|s| - 1])
  }

  function DigitValue(c: char): nat
    requires IsDigit(c)
  {
    c as int - '0' as int
  }

  /** Rendering a count and reading it back gives the count. */
  lemma {:induction false} DecimalRoundTrip(n: nat)
    ensures ParseDecimal(Decimal(n)) == n
  {
    if n >= 10 {
      var d := Decimal(n);
      assert d[..|d| - 1] == Decimal(n / 10);
      DecimalRoundTrip(n / 10);
    }
  }

  /** Two different counts never render the same. */
  lemma DecimalInjective(m: nat, n: nat)
    requires Decimal(m) == Decimal(n)
    ensures m == n
  {
    DecimalRoundTrip(m);
    DecimalRoundTrip(n);
  }

  // ---------------------------------------------------------------------
  // str.split() with no separator

  /** Length of the leading run of non-whitespace characters. */
  function WordEnd(s: string): (n: nat)
    ensures n <= |s|
    ensures forall i :: 0 <= i < n ==> !IsSpace(s[i])
    ensures n == |s| || IsSpace(s[n])
  {
    if |s| == 0 || IsSpace(s[0]) then 0 else 1 + WordEnd(s[1..])
  }

  /** The characters of `s` that are not whitespace, in order. */
  function NonSpace(s: string): string {
    if |s| == 0 then []
    else (if IsSpace(s[0]) then [] else [s[0]]) + NonSpace(s[1..])
  }

  function Concat(ws: seq<string>): string {
    if |ws| == 0 then [] else ws[0] + Concat(ws[1..])
  }

  /** `s.split()`: the maximal runs of non-whitespace characters. Every word
      is non-empty and whitespace-free, and together they hold exactly the
      non-whitespace characters of `s`, in order. */
  function Words(s: string): (ws: seq<string>)
    ensures forall w <- ws :: |w| > 0 && forall c <- w :: !IsSpace(c)
    ensures Concat(ws) == NonSpace(s)
    decreases |s|
  {
    if |s| == 0 then []
    else if IsSpace(s[0]) then Words(s[1..])
    else
      var n := WordEnd(s);
      LeadingRun(s);
      [s[..n]] + Words(s[n..])
  }

  lemma {:induction false} LeadingRun(s: string)
    ensures NonSpace(s) == s[..WordEnd(s)] + NonSpace(s[WordEnd(s)..])
  {
    if |s| > 0 && !IsSpace(s[0]) {
      LeadingRun(s[1..]);
      assert s[1..][WordEnd(s[1..])..] == s[WordEnd(s)..];
      assert [s[0]] + s[1..][..WordEnd(s[1..])] == s[..WordEnd(s)];
    }
  }

  /** Number of positions where a word starts: a non-whitespace character
      at the front (when `atBoundary`) or right after whitespace. */
  function WordStarts(s: string, atBoundary: bool): nat {
    if |s| == 0 then 0
    else (if atBoundary && !IsSpace(s[0]) then 1 else 0) + WordStarts(s[1..], IsSpace(s[0]))
  }

  /** `len(s.split())` counts the starts of the maximal non-whitespace runs. */
  lemma {:induction false} WordCountIsRunCount(s: string)
    ensures |Words(s)| == WordStarts(s, true)
    decreases |s|
  {
    if |s| > 0 {
      if IsSpace(s[0]) {
        WordCountIsRunCount(s[1..]);
      } else {
        var n := WordEnd(s);
        InsideRun(s, n);
        WordCountIsRunCount(s[n..]);
        assert WordStarts(s[n..], false) == WordStarts(s[n..], true) by {
          if |s[n..]| > 0 { assert IsSpace(s[n..][0]); }
        }
      }
    }
  }

  /** Inside a run of `n` non-whitespace characters no word starts, except
      possibly at its front. */
  lemma {:induction false} InsideRun(s: string, n: nat)
    requires 0 < n <= |s|
    requires forall i :: 0 <= i < n ==> !IsSpace(s[i])
    ensures WordStarts(s, true) == 1 + WordStarts(s[n..], false)
    ensures WordStarts(s, false) == WordStarts(s[n..], false)
  {
    if n > 1 {
      InsideRun(s[1..], n - 1);
      assert s[1..][n - 1..] == s[n..];
    }
  }

  function WordTotal(contents: seq<string>): nat {
    if |contents| == 0 then 0 else |Words(contents[0])| + WordTotal(contents[1..])
  }

  // ---------------------------------------------------------------------
  // Subsequences

  /** No element occurs twice. */
  predicate Distinct<T(==)>(xs: seq<T>) {
    forall i, j :: 0 <= i < j < |xs| ==> xs[i] != xs[j]
  }

  /** `xs` can be obtained from `ys` by dropping elements. */
  predicate IsSubsequence<T(==)>(xs: seq<T>, ys: seq<T>)
    decreases |ys|
  {
    if |xs| == 0 then true
    else if |ys| == 0 then false
    else if xs[0] == ys[0] then IsSubsequence(xs[1..], ys[1..])
    else IsSubsequence(xs, ys[1..])
  }

  lemma SubsequenceSkip<T>(xs: seq<T>, ys: seq<T>)
    requires |ys| > 0 && IsSubsequence(xs, ys[1..])
    ensures IsSubsequence(xs, ys)
  {
    if |xs| > 0 && xs[0] == ys[0] {
      SubsequenceDrop(xs, ys[1..]);
    }
  }

  /** Dropping the head of a subsequence keeps it a subsequence. */
  lemma {:induction false} SubsequenceDrop<T>(xs: seq<T>, ys: seq<T>)
    requires |xs| > 0 && IsSubsequence(xs, ys)
    ensures IsSubsequence(xs[1..], ys)
    decreases |ys|
  {
    if |ys| > 0 {
      if xs[0] == ys[0] {
        if |xs[1..]| > 0 && xs[1..][0] == ys[0] {
          SubsequenceDrop(xs[1..], ys[1..]);
        }
      } else {
        SubsequenceDrop(xs, ys[1..]);
        if |xs[1..]| > 0 && xs[1..][0] == ys[0] {
          SubsequenceDrop(xs[1..], ys[1..]);
        }
      }
    }
  }

  /** A prefix of a subsequence is a subsequence. */
  lemma {:induction false} SubsequencePrefix<T>(p: seq<T>, xs: seq<T>, ys: seq<T>)
    requires p <= xs && IsSubsequence(xs, ys)
    ensures IsSubsequence(p, ys)
    decreases |ys|
  {
    if |p| > 0 && |ys| > 0 {
      if xs[0] == ys[0] {
        assert p[1..] <= xs[1..];
        SubsequencePrefix(p[1..], xs[1..], ys[1..]);
      } else {
        SubsequencePrefix(p, xs, ys[1..]);
      }
    }
  }

  /** A subsequence of a subsequence is a subsequence. */
  lemma {:induction false} SubsequenceTrans<T>(xs: seq<T>, ys: seq<T>, zs: seq<T>)
    requires IsSubsequence(xs, ys) && IsSubsequence(ys, zs)
    ensures IsSubsequence(xs, zs)
    decreases |zs|
  {
    if |xs| > 0 && |zs| > 0 {
      if ys[0] == zs[0] {
        if xs[0] == ys[0] {
          SubsequenceTrans(xs[1..], ys[1..], zs[1..]);
        } else {
          SubsequenceTrans(xs, ys[1..], zs[1..]);
          SubsequenceSkip(xs, zs);
        }
      } else {
        SubsequenceTrans(xs, ys, zs[1..]);
        SubsequenceSkip(xs, zs);
      }
    }
  }

  /** Every element of a subsequence occurs in the sequence. */
  lemma {:induction false} SubsequenceMembers<T>(xs: seq<T>, ys: seq<T>)
    requires IsSubsequence(xs, ys)
    ensures forall x <- xs :: x in ys
    decreases |ys|
  {
    if |xs| > 0 {
      if xs[0] == ys[0] {
        SubsequenceMembers(xs[1..], ys[1..]);
        assert forall x <- xs :: x == xs[0] || x in xs[1..];
      } else {
        SubsequenceMembers(xs, ys[1..]);
      }
    }
  }

  /** A subsequence of a sequence without repeats has none either. */
  lemma {:induction false} SubsequenceDistinct<T>(xs: seq<T>, ys: seq<T>)
    requires IsSubsequence(xs, ys)
    ensures Distinct(ys) ==> Distinct(xs)
    decreases |ys|
  {
    if |xs| > 0 && Distinct(ys) {
      assert Distinct(ys[1..]);
      if xs[0] == ys[0] {
        SubsequenceDistinct(xs[1..], ys[1..]);
        SubsequenceMembers(xs[1..], ys[1..]);
        assert ys[0] !in ys[1..];
        assert forall j :: 1 <= j < |xs| ==> xs[j] == xs[1..][j - 1];
      } else {
        SubsequenceDistinct(xs, ys[1..]);
      }
    }
  }
}
