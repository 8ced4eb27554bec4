/** The few Python `str` operations annotree relies on, written out over
    `seq<char>` (one `char` per Unicode code point, as Python counts them). */
module Strings {
  import opened Wrappers

  /** Python's `str.isspace()`: the characters `strip`/`rstrip` remove. */
  predicate IsSpace(c: char)
  {
    c in {' ', '\t', '\n', '\U{000B}', '\U{000C}', '\r', '\U{001C}', '\U{001D}', '\U{001E}', '\U{001F}',
          '\U{0085}', '\U{00A0}', '\U{1680}', '\U{2028}', '\U{2029}', '\U{202F}', '\U{205F}', '\U{3000}'}
    || ('\U{2000}' <= c <= '\U{200A}')
  }

  predicate StartsWith(s: string, p: string)
  {
    |p| <= |s| && s[..|p|] == p
  }

  /** `pat` occurs in `s` starting at index `i`. */
  predicate OccursAt(s: string, pat: string, i: int)
  {
    0 <= i && i + |pat| <= |s| && s[i..i + |pat|] == pat
  }

  /** `s.lstrip()` */
  function LStrip(s: string): (r: string)
    ensures |r| <= |s| && r == s[|s| - |r|..]
    ensures |r| == 0 || !IsSpace(r[0])
    ensures forall k :: 0 <= k < |s| - |r| ==> IsSpace(s[k])
  {
    if |s| > 0 && IsSpace(s[0]) then LStrip(s[1..]) else s
  }

  /** `s.rstrip()` */
  function RStrip(s: string): (r: string)
    ensures StartsWith(s, r)
    ensures |r| == 0 || !IsSpace(r[|r| - 1])
    ensures forall k :: |r| <= k < |s| ==> IsSpace(s[k])
  {
    if |s| > 0 && IsSpace(s[|s| - 1]) then RStrip(s[..|s| - 1]) else s
  }

  /** `s.strip()`: the longest infix with no white space at either end. */
  function Strip(s: string): (r: string)
    ensures |r| == 0 || (!IsSpace(r[0]) && !IsSpace(r[|r| - 1]))
    ensures var i := |s| - |LStrip(s)|;
            OccursAt(s, r, i)
            && (forall k :: 0 <= k < i ==> IsSpace(s[k]))
            && (forall k :: i + |r| <= k < |s| ==> IsSpace(s[k]))
  {
    var l := LStrip(s);
    var r := RStrip(l);
    SuffixPrefix(s, l, r);
    r
  }

  /** A string that starts with no white space and has only white space
      after index `n`, where a character that is not white space stands,
      strips to its first `n` characters. */
  lemma StripTrailing(s: string, n: nat)
    requires 0 < n <= |s| && !IsSpace(s[0]) && !IsSpace(s[n - 1])
    requires forall k :: n <= k < |s| ==> IsSpace(s[k])
    ensures Strip(s) == s[..n]
  {
    var r := Strip(s);
    var i := |s| - |LStrip(s)|;
    assert r == s[i..i + |r|];
  }

  /** A prefix `r` of a suffix `l` of `s`, followed in `l` by white space only. */
  lemma SuffixPrefix(s: string, l: string, r: string)
    requires |l| <= |s| && l == s[|s| - |l|..] && StartsWith(l, r)
    requires forall k :: |r| <= k < |l| ==> IsSpace(l[k])
    ensures OccursAt(s, r, |s| - |l|)
    ensures forall k :: |s| - |l| + |r| <= k < |s| ==> IsSpace(s[k])
  {
    var i := |s| - |l|;
    assert r == l[..|r|] == s[i..i + |r|];
    forall k | i + |r| <= k < |s| ensures IsSpace(s[k]) {
      assert s[k] == l[k - i];
    }
  }

  /** `s.replace(pat, "")` for a non-empty `pat`: occurrences are removed
      left to right, without overlap. */
  function RemoveAll(s: string, pat: string): (r: string)
    requires |pat| > 0
    ensures |r| <= |s|
    ensures forall c :: c in r ==> c in s
    ensures |pat| == 1 ==> pat[0] !in r
    decreases |s|
  {
    if |s| < |pat| then s
    else if s[..|pat|] == pat then
      assert OccursAt(s, pat, 0);
      RemoveAll(s[|pat|..], pat)
    else
      var t := RemoveAll(s[1..], pat);
      assert forall i :: OccursAt(s[1..], pat, i) ==> OccursAt(s, pat, i + 1) by {
        forall i | OccursAt(s[1..], pat, i) ensures OccursAt(s, pat, i + 1) {
          assert s[1..][i..i + |pat|] == s[i + 1..i + 1 + |pat|];
        }
      }
      assert forall c :: c in t ==> c in s[1..];
      [s[0]] + t
  }

  /** First occurrence of `pat` in `s` at or after `from`. */
  function FindFrom(s: string, pat: string, from: nat): (r: Option<nat>)
    ensures r.Some? ==> from <= r.value && OccursAt(s, pat, r.value)
    ensures r.Some? ==> forall j :: from <= j < r.value ==> !OccursAt(s, pat, j)
    ensures r.None? ==> forall j :: from <= j ==> !OccursAt(s, pat, j)
    decreases |s| + 1 - from
  {
    if from + |pat| > |s| then None
    else if s[from..from + |pat|] == pat then Some(from)
    else FindFrom(s, pat, from + 1)
  }

  /** Python's `s.find(pat)`: the first index at which `pat` occurs. */
  function Find(s: string, pat: string): (r: Option<nat>)
    ensures r.None? ==> forall j :: !OccursAt(s, pat, j)
    ensures r.Some? ==> OccursAt(s, pat, r.value) && forall j :: 0 <= j < r.value ==> !OccursAt(s, pat, j)
  {
    FindFrom(s, pat, 0)
  }

  /** Python's `pat in s`. */
  predicate Contains(s: string, pat: string)
  {
    Find(s, pat).Some?
  }

  /** `Find` is determined by its contract: no occurrence gives `None`. */
  lemma FindNone(s: string, pat: string)
    requires forall j :: !OccursAt(s, pat, j)
    ensures Find(s, pat) == None
  {
  }

  /** ... and the first occurrence gives its index. */
  lemma FindFirst(s: string, pat: string, i: nat)
    requires OccursAt(s, pat, i) && forall j :: 0 <= j < i ==> !OccursAt(s, pat, j)
    ensures Find(s, pat) == Some(i)
  {
    assert Find(s, pat).Some?;
  }

  /** Occurrences in `s[1..]` are those in `s`, one place to the left. */
  lemma ShiftOccurs(s: string, pat: string, j: nat)
    requires |s| > 0
    ensures OccursAt(s[1..], pat, j) <==> OccursAt(s, pat, j + 1)
  {
    if j + 1 + |pat| <= |s| {
      assert s[1..][j..j + |pat|] == s[j + 1..j + 1 + |pat|];
    }
  }

  /** Dropping a first character where `pat` does not start moves the
      first occurrence one place to the left. */
  lemma FindShift(s: string, pat: string)
    requires |s| > 0 && !OccursAt(s, pat, 0)
    ensures Find(s, pat).None? ==> Find(s[1..], pat) == None
    ensures Find(s, pat).Some? ==> Find(s, pat).value > 0 && Find(s[1..], pat) == Some(Find(s, pat).value - 1)
  {
    match Find(s, pat)
    case None =>
      forall j ensures !OccursAt(s[1..], pat, j) {
        if j >= 0 { ShiftOccurs(s, pat, j); }
      }
      FindNone(s[1..], pat);
    case Some(i) =>
      ShiftOccurs(s, pat, i - 1);
      forall j | 0 <= j < i - 1 ensures !OccursAt(s[1..], pat, j) {
        ShiftOccurs(s, pat, j);
      }
      FindFirst(s[1..], pat, i - 1);
  }

  /** `s.replace(pat, "")` keeps the text before the first occurrence, drops
      the occurrence and goes on after it; without one it is `s`. */
  lemma {:induction false} RemoveAllFirst(s: string, pat: string)
    requires |pat| > 0
    ensures RemoveAllSplits(s, pat, Find(s, pat))
    decreases |s|
  {
    if |s| < |pat| {
    } else if s[..|pat|] == pat {
      assert OccursAt(s, pat, 0);
      FindFirst(s, pat, 0);
      assert s[..0] + RemoveAll(s[|pat|..], pat) == RemoveAll(s[|pat|..], pat);
    } else {
      assert !OccursAt(s, pat, 0);
      FindShift(s, pat);
      RemoveAllFirst(s[1..], pat);
      match Find(s, pat)
      case None =>
        RemoveAllPastNone(s, pat);
      case Some(i) =>
        RemoveAllPastAt(s, pat, i);
    }
  }

  /** `f` splits `s` for `RemoveAll`: with no occurrence nothing is removed,
      otherwise the text before `f` is kept and the occurrence dropped. */
  predicate RemoveAllSplits(s: string, pat: string, f: Option<nat>)
    requires |pat| > 0
  {
    match f
    case None => RemoveAll(s, pat) == s
    case Some(i) => i + |pat| <= |s| && RemoveAll(s, pat) == s[..i] + RemoveAll(s[i + |pat|..], pat)
  }

  /** A string in which `pat` occurs nowhere is left as it is. */
  lemma RemoveAllNone(s: string, pat: string)
    requires |pat| > 0 && forall j :: !OccursAt(s, pat, j)
    ensures RemoveAll(s, pat) == s
  {
    FindNone(s, pat);
    RemoveAllFirst(s, pat);
  }

  /** The steps of `RemoveAllFirst` past a first character where `pat`
      does not start, without an occurrence and with one at `i`. */
  lemma RemoveAllPastNone(s: string, pat: string)
    requires |pat| > 0 && |pat| <= |s| && s[..|pat|] != pat
    requires RemoveAll(s[1..], pat) == s[1..]
    ensures RemoveAll(s, pat) == s
  {
    RemoveAllSkip(s, pat);
    assert [s[0]] + s[1..] == s;
  }

  lemma RemoveAllPastAt(s: string, pat: string, i: nat)
    requires |pat| > 0 && |pat| <= |s| && s[..|pat|] != pat && 0 < i
    requires RemoveAllSplits(s[1..], pat, Some(i - 1))
    ensures RemoveAllSplits(s, pat, Some(i))
  {
    var t, rest := RemoveAll(s[1..], pat), RemoveAll(s[1..][i - 1 + |pat|..], pat);
    SplitsAt(s[1..], pat, i - 1, t, rest);
    RemoveAllPastAtSplit(s, pat, i);
    SplitsFrom(s, pat, i);
  }

  lemma RemoveAllPastAtSplit(s: string, pat: string, i: nat)
    requires |pat| > 0 && |pat| <= |s| && s[..|pat|] != pat
    requires 0 < i && i + |pat| <= |s|
    requires RemoveAll(s[1..], pat) == s[1..][..i - 1] + RemoveAll(s[1..][i - 1 + |pat|..], pat)
    ensures RemoveAll(s, pat) == s[..i] + RemoveAll(s[i + |pat|..], pat)
  {
    RemoveAllSkip(s, pat);
    ConsSlices(s, i, |pat|);
    RemoveAllSame(s[1..][i - 1 + |pat|..], s[i + |pat|..], pat);
    ConsChain(s[0], RemoveAll(s[1..], pat), s[1..][..i - 1], s[..i], RemoveAll(s[i + |pat|..], pat), RemoveAll(s, pat));
  }

  lemma SplitsAt(s: string, pat: string, i: nat, whole: string, rest: string)
    requires |pat| > 0 && RemoveAllSplits(s, pat, Some(i))
    requires whole == RemoveAll(s, pat)
    requires i + |pat| <= |s| ==> rest == RemoveAll(s[i + |pat|..], pat)
    ensures i + |pat| <= |s| && whole == s[..i] + rest
  {
  }

  lemma SplitsFrom(s: string, pat: string, i: nat)
    requires |pat| > 0 && i + |pat| <= |s| && RemoveAll(s, pat) == s[..i] + RemoveAll(s[i + |pat|..], pat)
    ensures RemoveAllSplits(s, pat, Some(i))
  {
  }

  lemma ConsChain(c: char, t: string, a: string, b: string, rest: string, whole: string)
    requires whole == [c] + t && t == a + rest && [c] + a == b
    ensures whole == b + rest
  {
    assert [c] + (a + rest) == ([c] + a) + rest;
  }

  lemma RemoveAllSkip(s: string, pat: string)
    requires |pat| > 0 && |pat| <= |s| && s[..|pat|] != pat
    ensures RemoveAll(s, pat) == [s[0]] + RemoveAll(s[1..], pat)
  {
  }

  lemma RemoveAllSame(u: string, v: string, pat: string)
    requires |pat| > 0 && u == v
    ensures RemoveAll(u, pat) == RemoveAll(v, pat)
  {
  }

  lemma ConsSlices(s: string, i: nat, n: nat)
    requires 0 < i && i + n <= |s|
    ensures s[1..][i - 1 + n..] == s[i + n..] && [s[0]] + s[1..][..i - 1] == s[..i]
  {
  }

  /** A pattern with a character that `s` lacks does not occur in `s`. */
  lemma MissingChar(s: string, pat: string, k: nat)
    requires k < |pat| && pat[k] !in s
    ensures forall j :: !OccursAt(s, pat, j)
    ensures !Contains(s, pat)
  {
    forall j ensures !OccursAt(s, pat, j) {
      if 0 <= j && j + |pat| <= |s| {
        assert s[j + k] in s;
        assert s[j..j + |pat|][k] == s[j + k];
      }
    }
  }

  /** An occurrence inside an occurring infix is an occurrence in `s`. */
  lemma InfixOccurs(s: string, t: string, i: nat, pat: string, j: nat)
    requires OccursAt(s, t, i) && OccursAt(t, pat, j)
    ensures OccursAt(s, pat, i + j)
  {
    assert t == s[i..][..|t|];
    assert t[j..j + |pat|] == s[i..][j..j + |pat|];
    assert s[i..][j..j + |pat|] == s[i + j..i + j + |pat|];
  }

  /** `s.ljust(width)`: `s` padded on the right with spaces to `width`. */
  function LJust(s: string, width: int): (r: string)
    ensures |r| == if width <= |s| then |s| else width
    ensures StartsWith(r, s)
    ensures forall k :: |s| <= k < |r| ==> r[k] == ' '
  {
    if width <= |s| then s else s + seq(width - |s|, _ => ' ')
  }

  function DigitChar(d: nat): (c: char)
    requires d < 10
  {
    "0123456789"[d]
  }

  predicate IsDigit(c: char)
  {
    '0' <= c <= '9'
  }

  /** Python's `str(n)` for a non-negative `n`. */
  function Decimal(n: nat): (r: string)
    ensures |r| > 0 && forall k :: 0 <= k < |r| ==> IsDigit(r[k])
    ensures r[0] == '0' ==> n == 0
  {
    if n < 10 then [DigitChar(n)] else Decimal(n / 10) + [DigitChar(n % 10)]
  }

  function DigitValue(c: char): (d: nat)
    requires IsDigit(c)
    ensures d < 10 && DigitChar(d) == c
  {
    (c as int - '0' as int)
  }

  /** Reads back a string of decimal digits. */
  function ParseDecimal(s: string): nat
    requires forall k :: 0 <= k < |s| ==> IsDigit(s[k])
  {
    if s == [] then 0 else ParseDecimal(s[..|s| - 1]) * 10 + DigitValue(s[|s| - 1])
  }

  /** `str(n)` is read back as `n`. */
  lemma {:induction false} DecimalRoundTrip(n: nat)
    ensures ParseDecimal(Decimal(n)) == n
  {
    if n >= 10 {
      var s := Decimal(n);
      assert s[..|s| - 1] == Decimal(n / 10);
      DecimalRoundTrip(n / 10);
    }
  }

  /** `"\n".join(lines)` */
  function JoinLines(lines: seq<string>): (r: string)
    ensures |lines| > 0 ==> StartsWith(r, lines[0])
    ensures |lines| == 1 ==> r == lines[0]
  {
    if |lines| == 0 then ""
    else if |lines| == 1 then lines[0]
    else lines[0] + "\n" + JoinLines(lines[1..])
  }

  /** `"\n".join(lines)` split at its last separator: all lines but the
      last joined, a newline, then the last line. */
  lemma {:induction false} JoinLinesLast(lines: seq<string>)
    requires |lines| >= 2
    ensures JoinLines(lines) == JoinLines(lines[..|lines| - 1]) + "\n" + lines[|lines| - 1]
    decreases |lines|
  {
    var n := |lines|;
    var init := lines[..n - 1];
    if n == 2 {
      assert init == [lines[0]];
      assert lines[1..] == [lines[1]];
    } else {
      JoinLinesLast(lines[1..]);
      assert lines[1..][..n - 2] == init[1..];
      assert lines[1..][n - 2] == lines[n - 1];
      assert init[0] == lines[0];
      assert JoinLines(init) == init[0] + "\n" + JoinLines(init[1..]);
    }
  }
}
