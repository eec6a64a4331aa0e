/**
 * The Python string builtins that the study assistant relies on, stated over
 * `string` (a sequence of Unicode code points, as a Python `str` is):
 * `str.isspace`, `str.strip()`, `str.rfind`, slicing `s[a:b]` with
 * non-negative bounds, `len(s.split())`, `sep.join(parts)` and
 * `os.path.basename`.
 */
module Text {

  function Min(a: int, b: int): int { if a <= b then a else b }
  function Max(a: int, b: int): int { if a >= b then a else b }

  /** The characters for which Python's `str.isspace()` holds: the ASCII
      controls TAB..CR and FS..US, SPACE, NEL, NBSP, and the Unicode space
      and separator characters. `str.strip()` and `str.split()` without
      arguments use exactly this set. */
  predicate IsSpace(c: char) {
    || ('\t' <= c <= '\r')
    || ('\U{1C}' <= c <= '\U{1F}')
    || c == ' '
    || c == '\U{85}'
    || c == '\U{A0}'
    || c == '\U{1680}'
    || ('\U{2000}' <= c <= '\U{200A}')
    || c == '\U{2028}'
    || c == '\U{2029}'
    || c == '\U{202F}'
    || c == '\U{205F}'
    || c == '\U{3000}'
  }

  /** Every character is whitespace (the empty string included). */
  ghost predicate Blank(s: string) {
    forall i {:trigger IsSpace(s[i])} :: 0 <= i < |s| ==> IsSpace(s[i])
  }

  /** No character is whitespace. */
  ghost predicate NoSpace(s: string) {
    forall i {:trigger IsSpace(s[i])} :: 0 <= i < |s| ==> !IsSpace(s[i])
  }

  /** Every character of `s` from index `lo` up to `hi` is whitespace. */
  ghost predicate SpacesIn(s: string, lo: int, hi: int) {
    forall k {:trigger IsSpace(s[k])} :: lo <= k < hi && 0 <= k < |s| ==> IsSpace(s[k])
  }

  /** No character of `s` from index `lo` up to `hi` is `c`. */
  ghost predicate Absent(s: string, c: char, lo: int, hi: int) {
    forall k :: lo <= k < hi && 0 <= k < |s| ==> s[k] != c
  }

  /** The first index at or after `i` that does not hold whitespace, or
      `|s|` when there is none (SkippedAreSpaces states that everything
      skipped is whitespace). */
  function SkipSpaces(s: string, i: nat): (n: nat)
    requires i <= |s|
    ensures i <= n <= |s|
    ensures n < |s| ==> !IsSpace(s[n])
    decreases |s| - i
  {
    if i == |s| || !IsSpace(s[i]) then i else SkipSpaces(s, i + 1)
  }

  lemma {:induction false} SkippedAreSpaces(s: string, i: nat)
    requires i <= |s|
    ensures SpacesIn(s, i, SkipSpaces(s, i))
    decreases |s| - i
  {
    if i < |s| && IsSpace(s[i]) {
      SkippedAreSpaces(s, i + 1);
    }
  }

  /** SkipSpaces is the only index from `i` on that has only whitespace
      before it and no whitespace at it. */
  lemma SkipSpacesUnique(s: string, i: nat, k: nat)
    requires i <= k <= |s| && SpacesIn(s, i, k) && (k < |s| ==> !IsSpace(s[k]))
    ensures SkipSpaces(s, i) == k
  {
    SkippedAreSpaces(s, i);
  }

  /** The start of the longest all-whitespace run ending at `j`
      (TrimmedAreSpaces states that the run is whitespace). */
  function TrimEnd(s: string, j: nat): (n: nat)
    requires j <= |s|
    ensures n <= j
    ensures 0 < n ==> !IsSpace(s[n - 1])
  {
    if j == 0 || !IsSpace(s[j - 1]) then j else TrimEnd(s, j - 1)
  }

  lemma {:induction false} TrimmedAreSpaces(s: string, j: nat)
    requires j <= |s|
    ensures SpacesIn(s, TrimEnd(s, j), j)
  {
    if j > 0 && IsSpace(s[j - 1]) {
      TrimmedAreSpaces(s, j - 1);
    }
  }

  /** TrimEnd is the only index up to `j` that has only whitespace from it
      to `j` and no whitespace just before it. */
  lemma TrimEndUnique(s: string, j: nat, k: nat)
    requires k <= j <= |s| && SpacesIn(s, k, j) && (0 < k ==> !IsSpace(s[k - 1]))
    ensures TrimEnd(s, j) == k
  {
    TrimmedAreSpaces(s, j);
  }

  /** `s.strip()`: `s` without its leading and trailing whitespace (StripSpec
      states what that is). */
  function Strip(s: string): (r: string)
    ensures |r| <= |s|
  {
    var a := SkipSpaces(s, 0);
    if a == |s| then []
    else
      var b := TrimEnd(s, |s|);
      TrimmedAreSpaces(s, |s|);
      assert !IsSpace(s[a]);
      s[a..b]
  }

  /** The stripped string is the contiguous part of `s` that starts after
      the leading whitespace and is followed only by whitespace; it is
      empty exactly when `s` is blank, and otherwise it neither starts nor
      ends with whitespace. */
  lemma StripSpec(s: string)
    ensures Strip(s) == [] <==> Blank(s)
    ensures Strip(s) != [] ==> !IsSpace(Strip(s)[0]) && !IsSpace(Strip(s)[|Strip(s)| - 1])
    ensures var a := SkipSpaces(s, 0);
      a + |Strip(s)| <= |s| && Strip(s) == s[a..a + |Strip(s)|]
    ensures SpacesIn(s, 0, SkipSpaces(s, 0)) && SpacesIn(s, SkipSpaces(s, 0) + |Strip(s)|, |s|)
  {
    var a := SkipSpaces(s, 0);
    SkippedAreSpaces(s, 0);
    TrimmedAreSpaces(s, |s|);
    if a < |s| {
      assert !Blank(s) by {
        assert !IsSpace(s[a]);
      }
    }
  }

  /** `strip()` removes exactly surrounding whitespace: whatever blank text
      is put around a string that neither starts nor ends with whitespace,
      stripping gives that string back. */
  lemma StripSurrounded(p: string, m: string, q: string)
    requires Blank(p) && Blank(q)
    requires m != [] ==> !IsSpace(m[0]) && !IsSpace(m[|m| - 1])
    ensures Strip(p + m + q) == m
  {
    var s := (p + m) + q;
    if m == [] {
      assert s == p + q;
      assert Blank(s) by {
        forall k | 0 <= k < |s| ensures IsSpace(s[k]) {
          if k < |p| { assert s[k] == p[k]; } else { assert s[k] == q[k - |p|]; }
        }
      }
      StripSpec(s);
    } else {
      var e := |p| + |m|;
      assert s[|p|] == m[0];
      assert s[e - 1] == m[|m| - 1];
      assert SpacesIn(s, 0, |p|) by {
        forall k | 0 <= k < |p| ensures IsSpace(s[k]) {
          assert s[k] == p[k];
        }
      }
      assert SpacesIn(s, e, |s|) by {
        forall k | e <= k < |s| ensures IsSpace(s[k]) {
          assert s[k] == q[k - e];
        }
      }
      SkipSpacesUnique(s, 0, |p|);
      TrimEndUnique(s, |s|, e);
      assert s[|p|..e] == m;
    }
  }

  /** Stripping twice is stripping once. */
  lemma StripIdempotent(s: string)
    ensures Strip(Strip(s)) == Strip(s)
  {
    var r := Strip(s);
    StripSpec(s);
    StripSurrounded([], r, []);
    assert [] + r + [] == r;
  }

  /** The index of the last occurrence of `c` before index `j`, or -1. */
  function LastBefore(s: string, c: char, j: nat): (r: int)
    requires j <= |s|
    ensures -1 <= r < j
    ensures 0 <= r ==> s[r] == c
    ensures Absent(s, c, r + 1, j)
  {
    if j == 0 then -1
    else if s[j - 1] == c then j - 1
    else LastBefore(s, c, j - 1)
  }

  /** `s.rfind(c)`: the index of the last occurrence of `c` in `s`, or -1
      when `c` does not occur. */
  function RFind(s: string, c: char): (r: int)
    ensures -1 <= r < |s|
    ensures 0 <= r ==> s[r] == c
    ensures Absent(s, c, r + 1, |s|)
  {
    LastBefore(s, c, |s|)
  }

  /** `s[lo:hi]` for non-negative bounds: both bounds are clamped to
      `len(s)`, and a slice whose start is not below its end is empty. */
  function Slice(s: string, lo: nat, hi: nat): (r: string)
    ensures |r| == (if lo < Min(hi, |s|) then Min(hi, |s|) - lo else 0)
  {
    var e := Min(hi, |s|);
    if lo < e then s[lo..e] else []
  }

  /** A slice of blank text is blank. */
  lemma BlankSlice(s: string, lo: nat, hi: nat)
    requires Blank(s)
    ensures Blank(Slice(s, lo, hi))
  {
    var w := Slice(s, lo, hi);
    forall k | 0 <= k < |w| ensures IsSpace(w[k]) {
      assert w[k] == s[lo + k];
    }
  }

  /** No character is a path separator. */
  ghost predicate NoSlash(s: string) {
    forall i :: 0 <= i < |s| ==> s[i] != '/'
  }

  /** `os.path.basename(path)` on POSIX: everything after the last `/`. */
  function BaseName(path: string): (r: string)
    ensures NoSlash(r)
    ensures |r| <= |path| && path[|path| - |r|..] == r
    ensures |r| < |path| ==> path[|path| - |r| - 1] == '/'
  {
    path[RFind(path, '/') + 1..]
  }

  /** The first index at or after `i` that holds whitespace, or `|s|`. */
  function TokenEnd(s: string, i: nat): (n: nat)
    requires i <= |s|
    ensures i <= n <= |s|
    ensures forall k :: i <= k < n ==> !IsSpace(s[k])
    ensures n < |s| ==> IsSpace(s[n])
    decreases |s| - i
  {
    if i == |s| || IsSpace(s[i]) then i else TokenEnd(s, i + 1)
  }

  /** The words of `s` from index `i` on. */
  function WordsFrom(s: string, i: nat): seq<string>
    requires i <= |s|
    decreases |s| - i
  {
    var a := SkipSpaces(s, i);
    if a == |s| then []
    else
      var b := TokenEnd(s, a);
      [s[a..b]] + WordsFrom(s, b)
  }

  /** `s.split()` without a separator: the maximal runs of non-whitespace
      characters, in order. */
  function Words(s: string): seq<string> {
    WordsFrom(s, 0)
  }

  /** Each word is non-empty and holds no whitespace. */
  lemma {:induction false} WordsFromAreTokens(s: string, i: nat)
    requires i <= |s|
    ensures forall k :: 0 <= k < |WordsFrom(s, i)| ==> WordsFrom(s, i)[k] != [] && NoSpace(WordsFrom(s, i)[k])
    decreases |s| - i
  {
    var a := SkipSpaces(s, i);
    if a < |s| {
      var b := TokenEnd(s, a);
      WordsFromAreTokens(s, b);
      var ws := WordsFrom(s, i);
      var w := s[a..b];
      assert ws == [w] + WordsFrom(s, b);
      assert NoSpace(w) by {
        forall k | 0 <= k < |w| ensures !IsSpace(w[k]) {
          assert w[k] == s[a + k];
        }
      }
      forall k | 0 <= k < |ws| ensures ws[k] != [] && NoSpace(ws[k]) {
        if k > 0 {
          assert ws[k] == WordsFrom(s, b)[k - 1];
        }
      }
    }
  }

  lemma WordsAreTokens(s: string)
    ensures forall k :: 0 <= k < |Words(s)| ==> Words(s)[k] != [] && NoSpace(Words(s)[k])
  {
    WordsFromAreTokens(s, 0);
  }

  /** Words need a character each and whitespace between them: from index
      `i` on there are at most `(|s| - i + 1) / 2` words, and one fewer
      half when the text there starts with whitespace. */
  lemma {:induction false} WordsFromBound(s: string, i: nat)
    requires i <= |s|
    ensures 2 * |WordsFrom(s, i)| <= |s| - i + 1
    ensures i < |s| && IsSpace(s[i]) ==> 2 * |WordsFrom(s, i)| <= |s| - i
    decreases |s| - i
  {
    var a := SkipSpaces(s, i);
    if a < |s| {
      var b := TokenEnd(s, a);
      WordsFromBound(s, b);
    }
  }

  /** `len(s.split())`: at most one word per two characters, rounded up. */
  function WordCount(s: string): (n: nat)
    ensures 2 * n <= |s| + 1
  {
    WordsFromBound(s, 0);
    |Words(s)|
  }

  /** An independent count of the words of `s` from index `i` on: the
      number of positions holding a non-whitespace character whose
      predecessor is whitespace or lies before `i` (`afterSpace` says
      whether the character before `i` was whitespace or absent). */
  function RunStarts(s: string, i: nat, afterSpace: bool): nat
    requires i <= |s|
    decreases |s| - i
  {
    if i == |s| then 0
    else (if afterSpace && !IsSpace(s[i]) then 1 else 0) + RunStarts(s, i + 1, IsSpace(s[i]))
  }

  lemma {:induction false} RunStartsSkipSpaces(s: string, i: nat, j: nat)
    requires i <= j <= |s|
    requires SpacesIn(s, i, j)
    ensures RunStarts(s, i, true) == RunStarts(s, j, true)
    decreases j - i
  {
    if i < j {
      RunStartsSkipSpaces(s, i + 1, j);
    }
  }

  lemma {:induction false} RunStartsInsideWord(s: string, i: nat, j: nat)
    requires i <= j <= |s|
    requires forall k :: i <= k < j ==> !IsSpace(s[k])
    ensures RunStarts(s, i, false) == RunStarts(s, j, false)
    decreases j - i
  {
    if i < j {
      RunStartsInsideWord(s, i + 1, j);
    }
  }

  lemma {:induction false} WordsFromIsRunCount(s: string, i: nat)
    requires i <= |s|
    ensures |WordsFrom(s, i)| == RunStarts(s, i, true)
    decreases |s| - i
  {
    var a := SkipSpaces(s, i);
    SkippedAreSpaces(s, i);
    RunStartsSkipSpaces(s, i, a);
    if a < |s| {
      var b := TokenEnd(s, a);
      RunStartsInsideWord(s, a + 1, b);
      assert RunStarts(s, b, false) == RunStarts(s, b, true);
      WordsFromIsRunCount(s, b);
    }
  }

  /** `len(s.split())` is the number of maximal runs of non-whitespace. */
  lemma WordCountIsRunCount(s: string)
    ensures WordCount(s) == RunStarts(s, 0, true)
  {
    WordsFromIsRunCount(s, 0);
  }

  /** `sep.join(parts)` (JoinEnds, JoinAppend, JoinHoldsParts and
      JoinLength state what it gives). */
  function Join(sep: string, parts: seq<string>): string
  {
    if |parts| == 0 then []
    else if |parts| == 1 then parts[0]
    else parts[0] + sep + Join(sep, parts[1..])
  }

  /** Joining two non-empty lists is joining each and putting one separator
      between the results. */
  lemma {:induction false} JoinAppend(sep: string, a: seq<string>, b: seq<string>)
    requires a != [] && b != []
    ensures Join(sep, a + b) == Join(sep, a) + sep + Join(sep, b)
  {
    if |a| == 1 {
      assert (a + b)[1..] == b;
    } else {
      assert (a + b)[1..] == a[1..] + b;
      JoinAppend(sep, a[1..], b);
    }
  }

  /** A join starts with the first part and ends with the last. */
  lemma {:induction false} JoinEnds(sep: string, parts: seq<string>)
    requires parts != []
    ensures var r := Join(sep, parts);
      && |parts[0]| <= |r| && r[..|parts[0]|] == parts[0]
      && |parts[|parts| - 1]| <= |r| && r[|r| - |parts[|parts| - 1]|..] == parts[|parts| - 1]
  {
    if |parts| > 1 {
      var rest := parts[1..];
      JoinEnds(sep, rest);
      var r := Join(sep, parts);
      var t := Join(sep, rest);
      var last := parts[|parts| - 1];
      assert r == (parts[0] + sep) + t;
      assert rest[|rest| - 1] == last;
      assert r[..|parts[0]|] == parts[0];
      assert r[|r| - |last|..] == t[|t| - |last|..];
    }
  }

  /** `r` occurs in `s` at index `a`. */
  ghost predicate OccursAt(r: string, s: string, a: int) {
    0 <= a && a + |r| <= |s| && s[a..a + |r|] == r
  }

  /** `r` occurs somewhere in `s`. */
  ghost predicate Contains(s: string, r: string) {
    exists a :: OccursAt(r, s, a)
  }

  /** Every part is found in the joined string. */
  lemma {:induction false} JoinHoldsParts(sep: string, parts: seq<string>, i: int)
    requires 0 <= i < |parts|
    ensures Contains(Join(sep, parts), parts[i])
  {
    var j := Join(sep, parts);
    if |parts| == 1 {
      assert j[0..|parts[0]|] == parts[0];
      assert OccursAt(parts[i], j, 0);
    } else if i == 0 {
      assert j == parts[0] + sep + Join(sep, parts[1..]);
      assert j[0..|parts[0]|] == parts[0];
      assert OccursAt(parts[i], j, 0);
    } else {
      var rest := Join(sep, parts[1..]);
      JoinHoldsParts(sep, parts[1..], i - 1);
      var a :| OccursAt(parts[1..][i - 1], rest, a);
      var off := |parts[0]| + |sep|;
      assert j == (parts[0] + sep) + rest;
      assert j[off + a..off + a + |parts[i]|] == rest[a..a + |parts[i]|];
      assert OccursAt(parts[i], j, off + a);
    }
  }

  function TotalLength(parts: seq<string>): nat {
    if parts == [] then 0 else |parts[0]| + TotalLength(parts[1..])
  }

  /** A join holds every part and one separator between each two parts. */
  lemma {:induction false} JoinLength(sep: string, parts: seq<string>)
    requires parts != []
    ensures |Join(sep, parts)| == TotalLength(parts) + |sep| * (|parts| - 1)
  {
    if |parts| > 1 {
      JoinLength(sep, parts[1..]);
    }
  }
}
