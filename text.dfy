/** The string operations the core uses: `String(n)`, `padStart`, printf's
    `%0Nd`, JavaScript's `<` on strings, `replace` with a string pattern and
    `toLowerCase` on ASCII. */
module Text {
  import opened Wrappers

  predicate IsDigit(c: char) {
    '0' <= c <= '9'
  }

  function Digit(d: nat): (c: char)
    requires d < 10
    ensures IsDigit(c)
  {
    ('0' as int + d) as char
  }

  function DigitValue(c: char): (d: nat)
    requires IsDigit(c)
    ensures d < 10 && Digit(d) == c
  {
    c as int - '0' as int
  }

  predicate AllDigits(s: string) {
    forall k :: 0 <= k < |s| ==> IsDigit(s[k])
  }

  /** `String(n)` for a non-negative integer: its decimal digits, no leading zero. */
  function Decimal(n: nat): (s: string)
    ensures 1 <= |s| && AllDigits(s)
    decreases n
  {
    if n < 10 then [Digit(n)] else Decimal(n / 10) + [Digit(n % 10)]
  }

  /** The value of a string of decimal digits. */
  function ParseDecimal(s: string): nat
    requires AllDigits(s)
  {
    if s == [] then 0 else 10 * ParseDecimal(s[..|s| - 1]) + DigitValue(s[|s| - 1])
  }

  lemma {:induction false} ParseDecimalInverts(n: nat)
    ensures ParseDecimal(Decimal(n)) == n
    decreases n
  {
    if n >= 10 {
      var s := Decimal(n);
      assert s[..|s| - 1] == Decimal(n / 10);
      ParseDecimalInverts(n / 10);
    }
  }

  /** Different numbers have different decimal forms. */
  lemma DecimalInjective(m: nat, n: nat)
    requires Decimal(m) == Decimal(n)
    ensures m == n
  {
    ParseDecimalInverts(m);
    ParseDecimalInverts(n);
  }

  function Pow10(k: nat): (p: nat)
    ensures p >= 1
    ensures k >= 1 ==> p >= 10
  {
    if k == 0 then 1 else 10 * Pow10(k - 1)
  }

  /** A number has at most k digits exactly when it is below 10^k. */
  lemma {:induction false} DecimalLength(n: nat, k: nat)
    requires k >= 1
    ensures |Decimal(n)| <= k <==> n < Pow10(k)
    decreases n
  {
    if n >= 10 {
      assert |Decimal(n)| == |Decimal(n / 10)| + 1;
      if k > 1 {
        DecimalLength(n / 10, k - 1);
      }
    }
  }

  /** The last k decimal digits of n, zero-filled on the left. */
  function FixedDigits(n: nat, k: nat): (s: string)
    ensures |s| == k && AllDigits(s)
  {
    if k == 0 then [] else FixedDigits(n / 10, k - 1) + [Digit(n % 10)]
  }

  /** k copies of x. */
  function Fill<T>(x: T, k: nat): (s: seq<T>)
    ensures |s| == k
    ensures forall i :: 0 <= i < k ==> s[i] == x
  {
    seq(k, _ => x)
  }

  /** `s.padStart(width, c)` with a one-character pad string. */
  function PadStart(s: string, width: nat, c: char): (r: string)
    ensures |r| == if |s| >= width then |s| else width
    ensures r[|r| - |s|..] == s
    ensures forall i :: 0 <= i < |r| - |s| ==> r[i] == c
  {
    if |s| >= width then s else Fill(c, width - |s|) + s
  }

  /** printf's `%0<width>d` for a non-negative integer. */
  function ZeroPadded(n: nat, width: nat): string {
    if n < Pow10(width) then FixedDigits(n, width) else Decimal(n)
  }

  lemma {:induction false} FixedDigitsOfZero(k: nat)
    ensures FixedDigits(0, k) == Fill('0', k)
  {
    if k > 0 {
      FixedDigitsOfZero(k - 1);
    }
  }

  /** The k fixed digits of a number below 10^k are its decimal form with
      zeros in front. */
  lemma {:induction false} FixedIsZerosThenDecimal(n: nat, k: nat)
    requires k >= 1 && n < Pow10(k)
    ensures |Decimal(n)| <= k && FixedDigits(n, k) == Fill('0', k - |Decimal(n)|) + Decimal(n)
    decreases k
  {
    var d := Digit(n % 10);
    if n < 10 {
      assert n / 10 == 0 && Decimal(n) == [d];
      FixedDigitsOfZero(k - 1);
    } else {
      var front, rest := Decimal(n / 10), FixedDigits(n / 10, k - 1);
      assert |front| <= k - 1 && rest == Fill('0', k - 1 - |front|) + front by {
        DropLastDigit(n, k);
        FixedIsZerosThenDecimal(n / 10, k - 1);
      }
      var zeros := Fill('0', k - 1 - |front|);
      assert Decimal(n) == front + [d];
      Reassociate(zeros, front, d);
    }
  }

  /** Dropping the last digit of a number below 10^k leaves one below
      10^(k-1). */
  lemma DropLastDigit(n: nat, k: nat)
    requires k >= 1 && n < Pow10(k)
    ensures n / 10 < Pow10(k - 1)
  {
    assert Pow10(k) == 10 * Pow10(k - 1);
  }

  lemma Reassociate<T>(a: seq<T>, b: seq<T>, x: T)
    ensures (a + b) + [x] == a + (b + [x])
  {
  }

  /** Padding the decimal form of a number below 10^k to k places with
      zeros gives its k fixed digits. */
  lemma PadDecimalIsFixed(n: nat, k: nat)
    requires k >= 1 && n < Pow10(k)
    ensures PadStart(Decimal(n), k, '0') == FixedDigits(n, k)
  {
    FixedIsZerosThenDecimal(n, k);
    PadIsZerosThen(Decimal(n), k, FixedDigits(n, k));
  }

  /** A string padded with zeros to width k is the string with k - |d|
      zeros in front. */
  lemma PadIsZerosThen(d: string, k: nat, f: string)
    requires |d| <= k && f == Fill('0', k - |d|) + d
    ensures PadStart(d, k, '0') == f
  {
    if |d| == k {
      assert Fill('0', 0) == [];
    }
  }

  /** `padStart(String(n), width, '0')` and printf's `%0<width>d` agree on
      every non-negative integer, including those wider than `width`. */
  lemma PadStartIsZeroPadded(n: nat, width: nat)
    requires width >= 1
    ensures PadStart(Decimal(n), width, '0') == ZeroPadded(n, width)
  {
    DecimalLength(n, width);
    if n < Pow10(width) {
      PadDecimalIsFixed(n, width);
    }
  }

  /** JavaScript's `<` on strings: lexicographic by character code. */
  predicate LexLess(a: string, b: string)
    decreases |a|
  {
    if a == [] then b != []
    else if b == [] then false
    else if a[0] != b[0] then a[0] < b[0]
    else LexLess(a[1..], b[1..])
  }

  lemma {:induction false} LexCommonPrefix(p: string, a: string, b: string)
    ensures LexLess(p + a, p + b) == LexLess(a, b)
    decreases |p|
  {
    if p == [] {
      assert p + a == a && p + b == b;
    } else {
      assert (p + a)[1..] == p[1..] + a;
      assert (p + b)[1..] == p[1..] + b;
      LexCommonPrefix(p[1..], a, b);
    }
  }

  lemma {:induction false} LexFirstDifference(a: string, b: string, s: string, t: string)
    requires |a| == |b| && a != b
    ensures LexLess(a + s, b + t) == LexLess(a, b)
    decreases |a|
  {
    assert (a + s)[0] == a[0] && (b + t)[0] == b[0];
    if a[0] == b[0] {
      assert a[1..] != b[1..];
      assert (a + s)[1..] == a[1..] + s;
      assert (b + t)[1..] == b[1..] + t;
      LexFirstDifference(a[1..], b[1..], s, t);
    }
  }

  lemma {:induction false} LexIrreflexive(a: string)
    ensures !LexLess(a, a)
    decreases |a|
  {
    if a != [] {
      LexIrreflexive(a[1..]);
    }
  }

  lemma LexLastChar(a: string, b: string, x: char, y: char)
    requires |a| == |b|
    ensures LexLess(a + [x], b + [y]) <==> LexLess(a, b) || (a == b && x < y)
  {
    if a == b {
      LexCommonPrefix(a, [x], [y]);
      assert [x][1..] == [] && [y][1..] == [];
      assert LexLess([x], [y]) == (x < y);
      LexIrreflexive(a);
    } else {
      LexFirstDifference(a, b, [x], [y]);
    }
  }

  /** Fixed-width digit strings compare, and are equal, as the numbers do. */
  lemma {:induction false} FixedDigitsOrder(i: nat, j: nat, k: nat)
    requires i < Pow10(k) && j < Pow10(k)
    ensures FixedDigits(i, k) == FixedDigits(j, k) <==> i == j
    ensures LexLess(FixedDigits(i, k), FixedDigits(j, k)) <==> i < j
  {
    if k > 0 {
      FixedDigitsOrder(i / 10, j / 10, k - 1);
      var a, b := FixedDigits(i / 10, k - 1), FixedDigits(j / 10, k - 1);
      LexLastChar(a, b, Digit(i % 10), Digit(j % 10));
      if FixedDigits(i, k) == FixedDigits(j, k) {
        assert a == FixedDigits(i, k)[..k - 1] && b == FixedDigits(j, k)[..k - 1];
        assert Digit(i % 10) == FixedDigits(i, k)[k - 1];
        assert DigitValue(Digit(i % 10)) == i % 10 && DigitValue(Digit(j % 10)) == j % 10;
      }
    }
  }

  /** The pattern `pat` starts at index j of s. */
  predicate OccursAt(s: string, pat: string, j: nat) {
    j + |pat| <= |s| && s[j..j + |pat|] == pat
  }

  predicate Contains(s: string, pat: string) {
    exists j: nat :: j <= |s| && OccursAt(s, pat, j)
  }

  /** An occurrence at j + 1 in s is one at j in s without its first
      character. */
  lemma OccursShift(s: string, pat: string)
    requires |s| >= 1
    ensures forall j: nat :: j > 0 ==> OccursAt(s, pat, j) == OccursAt(s[1..], pat, j - 1)
  {
    forall j: nat | j > 0 ensures OccursAt(s, pat, j) == OccursAt(s[1..], pat, j - 1) {
      var k: nat := j - 1;
      if k + 1 + |pat| <= |s| {
        var a, b := s[k + 1..k + 1 + |pat|], s[1..][k..k + |pat|];
        forall m | 0 <= m < |pat| ensures a[m] == b[m] {
          assert a[m] == s[k + 1 + m] && b[m] == s[1..][k + m];
        }
        assert a == b;
      }
    }
  }

  /** `s.indexOf(pat)`: the first index at which pat occurs, if any. */
  function IndexOf(s: string, pat: string): (r: Option<nat>)
    ensures r.Some? ==> OccursAt(s, pat, r.value)
    ensures r.Some? ==> forall j: nat :: j < r.value ==> !OccursAt(s, pat, j)
    ensures r.None? ==> forall j: nat :: !OccursAt(s, pat, j)
    decreases |s|
  {
    if |s| < |pat| then None
    else if s[..|pat|] == pat then Some(0)
    else
      var rest := IndexOf(s[1..], pat);
      OccursShift(s, pat);
      match rest
      case None => None
      case Some(k) => Some(k + 1)
  }

  /** indexOf finds a pattern exactly when the string contains it. */
  lemma IndexOfFindsContained(s: string, pat: string)
    ensures IndexOf(s, pat).Some? <==> Contains(s, pat)
  {
    if IndexOf(s, pat).Some? {
      assert OccursAt(s, pat, IndexOf(s, pat).value);
    }
  }

  /** `s.replace(pat, rep)` with a string pattern: only the first occurrence
      of pat is replaced; a string without one is returned unchanged. */
  function ReplaceFirst(s: string, pat: string, rep: string): (r: string)
    ensures !Contains(s, pat) ==> r == s
    ensures Contains(s, pat) ==> |r| == |s| - |pat| + |rep|
    ensures Contains(s, pat) ==>
              exists i: nat :: i + |pat| <= |s| && OccursAt(s, pat, i)
                               && (forall j: nat :: j < i ==> !OccursAt(s, pat, j))
                               && r == s[..i] + rep + s[i + |pat|..]
  {
    IndexOfFindsContained(s, pat);
    match IndexOf(s, pat)
    case None => s
    case Some(k) => s[..k] + rep + s[k + |pat|..]
  }

  /** Where indexOf finds the pattern is where replace puts the replacement. */
  lemma ReplaceFirstAt(s: string, pat: string, rep: string, i: nat)
    requires IndexOf(s, pat) == Some(i)
    ensures ReplaceFirst(s, pat, rep) == s[..i] + rep + s[i + |pat|..]
  {
  }

  /** `s.length` in JavaScript: UTF-16 code units, two for a character
      outside the Basic Multilingual Plane (an emoji, say). */
  function Utf16Length(s: string): (n: nat)
    ensures |s| <= n <= 2 * |s|
    ensures n == |s| <==> forall i :: 0 <= i < |s| ==> s[i] as int < 0x1_0000
  {
    if s == [] then 0
    else
      var front := s[..|s| - 1];
      assert forall i :: 0 <= i < |front| ==> front[i] == s[i];
      Utf16Length(front) + (if s[|s| - 1] as int < 0x1_0000 then 1 else 2)
  }

  /** A string of n characters outside the Basic Multilingual Plane is 2n
      code units long. */
  lemma {:induction false} AstralCountsTwice(c: char, n: nat)
    requires c as int >= 0x1_0000
    ensures Utf16Length(Fill(c, n)) == 2 * n
  {
    if n > 0 {
      AstralCountsTwice(c, n - 1);
      assert Fill(c, n)[..n - 1] == Fill(c, n - 1);
    }
  }

  function LowerChar(c: char): char {
    if 'A' <= c <= 'Z' then (c as int + 32) as char else c
  }

  /** `s.toLowerCase()` on ASCII letters; other characters are kept. */
  function Lower(s: string): (r: string)
    ensures |r| == |s|
  {
    if s == [] then [] else [LowerChar(s[0])] + Lower(s[1..])
  }
}
