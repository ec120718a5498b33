/** The three JavaScript string operations the catalogue layer relies on:
    `String.prototype.trim`, `split` on a one-character separator (only the
    first piece is ever used) and `replace` with a plain-string pattern, which
    rewrites the first occurrence only. */
module Text {
  import opened Wrappers

  /** The ECMAScript WhiteSpace and LineTerminator code points outside the
      range U+2000..U+200A. */
  const WhiteSpaceChars: set<char> := {
    '\t', '\n', '\U{000B}', '\U{000C}', '\r', ' ', '\U{00A0}', '\U{1680}',
    '\U{2028}', '\U{2029}', '\U{202F}', '\U{205F}', '\U{3000}', '\U{FEFF}'
  }

  /** ECMAScript WhiteSpace and LineTerminator code points: exactly what `trim` strips. */
  predicate IsWhiteSpace(c: char) {
    c in WhiteSpaceChars || '\U{2000}' <= c <= '\U{200A}'
  }

  /** Every character of `s` is white space (vacuously true of the empty string). */
  predicate AllWhiteSpace(s: string) {
    forall k | 0 <= k < |s| :: IsWhiteSpace(s[k])
  }

  /** `s` without its leading white space: a suffix of `s`, everything dropped is
      white space, and what is left does not start with white space. */
  function TrimStart(s: string): (r: string)
    ensures |r| <= |s| && r == s[|s| - |r|..]
    ensures forall k | 0 <= k < |s| - |r| :: IsWhiteSpace(s[k])
    ensures r == [] || !IsWhiteSpace(r[0])
  {
    if |s| > 0 && IsWhiteSpace(s[0]) then TrimStart(s[1..]) else s
  }

  /** `s` without its trailing white space: a prefix of `s`, everything dropped is
      white space, and what is left does not end with white space. */
  function TrimEnd(s: string): (r: string)
    ensures |r| <= |s| && r == s[..|r|]
    ensures forall k | |r| <= k < |s| :: IsWhiteSpace(s[k])
    ensures r == [] || !IsWhiteSpace(r[|r| - 1])
  {
    if |s| > 0 && IsWhiteSpace(s[|s| - 1]) then TrimEnd(s[..|s| - 1]) else s
  }

  /** Trimming both ends is empty exactly when `s` is all white space, and
      otherwise keeps a non-white-space character at each end. */
  lemma TrimEmptyIffBlank(s: string)
    ensures var r := TrimEnd(TrimStart(s));
      && (r == [] <==> AllWhiteSpace(s))
      && (r != [] ==> !IsWhiteSpace(r[0]) && !IsWhiteSpace(r[|r| - 1]))
  {
    var t := TrimStart(s);
    var r := TrimEnd(t);
    if r != [] {
      assert s[|s| - |t|] == r[0];
    }
  }

  /** `r` sits in `s` at index `a` with nothing but white space before and after it. */
  predicate PaddedAt(s: string, r: string, a: int) {
    OccursAt(s, r, a) && AllWhiteSpace(s[..a]) && AllWhiteSpace(s[a + |r|..])
  }

  /** A slice of `s` whose every index holds white space is all white space. */
  lemma WhiteSpaceSlice(s: string, lo: nat, hi: nat)
    requires lo <= hi <= |s|
    requires forall k | lo <= k < hi :: IsWhiteSpace(s[k])
    ensures AllWhiteSpace(s[lo..hi])
  {
    var w := s[lo..hi];
    forall k | 0 <= k < |w| ensures IsWhiteSpace(w[k]) {
      assert w[k] == s[lo + k];
    }
  }

  /** Trimming both ends drops white space, and only white space: what is left
      sits in `s` at some index with nothing but white space on either side. */
  lemma TrimDropsOnlyWhiteSpace(s: string)
    ensures exists a :: PaddedAt(s, TrimEnd(TrimStart(s)), a)
  {
    var t := TrimStart(s);
    var r := TrimEnd(t);
    var a := |s| - |t|;
    assert OccursAt(s, r, a);
    WhiteSpaceSlice(s, 0, a);
    assert s[0..a] == s[..a];
    forall k | a + |r| <= k < |s| ensures IsWhiteSpace(s[k]) {
      assert s[k] == t[k - a];
    }
    WhiteSpaceSlice(s, a + |r|, |s|);
    assert s[a + |r|..|s|] == s[a + |r|..];
    assert PaddedAt(s, r, a);
  }

  /** `s.trim()`. The result is empty exactly when `s` is nothing but white space,
      which is when `!query.trim()` holds in `searchBooks`; otherwise it is the stretch
      of `s` left after dropping white space, and only white space, from both
      ends, and it neither starts nor ends with white space. */
  function Trim(s: string): (r: string)
    ensures |r| > 0 ==> !IsWhiteSpace(r[0]) && !IsWhiteSpace(r[|r| - 1])
    ensures r == [] <==> AllWhiteSpace(s)
    ensures exists a :: PaddedAt(s, r, a)
  {
    TrimEmptyIffBlank(s);
    TrimDropsOnlyWhiteSpace(s);
    TrimEnd(TrimStart(s))
  }

  /** `p` is what `s.split(sep)[0]` yields: the part of `s` before the first
      `sep`, or all of `s` when `sep` does not occur. */
  predicate IsFirstSegment(p: string, s: string, sep: char) {
    && |p| <= |s|
    && p == s[..|p|]
    && sep !in p
    && (|p| == |s| || s[|p|] == sep)
  }

  /** `s.split(sep)` for a one-character separator: never empty, no piece holds
      the separator, and the first piece is the part before the first separator. */
  function Split(s: string, sep: char): (parts: seq<string>)
    ensures |parts| >= 1
    ensures forall k | 0 <= k < |parts| :: sep !in parts[k]
    ensures IsFirstSegment(parts[0], s, sep)
    decreases |s|
  {
    if |s| == 0 then [""]
    else
      var rest := Split(s[1..], sep);
      if s[0] == sep then [""] + rest
      else
        assert s[..1 + |rest[0]|] == [s[0]] + s[1..][..|rest[0]|];
        [[s[0]] + rest[0]] + rest[1..]
  }

  /** `parts.join(sep)`: the inverse of `Split`. */
  function Join(parts: seq<string>, sep: char): string
    requires |parts| >= 1
    decreases |parts|
  {
    if |parts| == 1 then parts[0] else parts[0] + [sep] + Join(parts[1..], sep)
  }

  /** Splitting loses nothing: joining the pieces back with the separator gives
      the original string. */
  lemma {:induction false} JoinSplit(s: string, sep: char)
    ensures Join(Split(s, sep), sep) == s
    decreases |s|
  {
    if |s| > 0 {
      var rest := Split(s[1..], sep);
      JoinSplit(s[1..], sep);
      var parts := Split(s, sep);
      if s[0] == sep {
        assert parts[1..] == rest;
      } else {
        assert parts[1..] == rest[1..];
        if |rest| == 1 {
          assert Join(parts, sep) == [s[0]] + rest[0];
        } else {
          assert Join(rest, sep) == rest[0] + [sep] + Join(rest[1..], sep);
          assert Join(parts, sep) == [s[0]] + rest[0] + [sep] + Join(rest[1..], sep);
        }
        assert s == [s[0]] + s[1..];
      }
    }
  }

  /** The first piece of a split is pinned down by `IsFirstSegment`: no other
      string satisfies it. */
  lemma FirstSegmentUnique(p: string, q: string, s: string, sep: char)
    requires IsFirstSegment(p, s, sep) && IsFirstSegment(q, s, sep)
    ensures p == q
  {
  }

  /** `pat` sits in `s` at index `i`. */
  predicate OccursAt(s: string, pat: string, i: int) {
    0 <= i && i + |pat| <= |s| && s[i..i + |pat|] == pat
  }

  /** `i` is the first index at which `pat` occurs in `s`. */
  predicate IsFirstOccurrence(s: string, pat: string, i: int) {
    OccursAt(s, pat, i) && forall j | 0 <= j < i :: !OccursAt(s, pat, j)
  }

  /** The first index at or after `from` where `pat` occurs in `s`, if any. */
  function IndexOfFrom(s: string, pat: string, from: nat): (r: Option<nat>)
    ensures r.Some? ==> from <= r.value && OccursAt(s, pat, r.value)
    ensures r.Some? ==> forall j | from <= j < r.value :: !OccursAt(s, pat, j)
    ensures r.None? ==> forall j | from <= j :: !OccursAt(s, pat, j)
    decreases |s| - from
  {
    if from + |pat| > |s| then None
    else if s[from..from + |pat|] == pat then Some(from)
    else IndexOfFrom(s, pat, from + 1)
  }

  /** `s.indexOf(pat)`, with `None` for JavaScript's -1. */
  function IndexOf(s: string, pat: string): (r: Option<nat>)
    ensures r.Some? ==> IsFirstOccurrence(s, pat, r.value)
    ensures r.None? <==> forall j :: !OccursAt(s, pat, j)
  {
    IndexOfFrom(s, pat, 0)
  }

  /** `s.replace(pat, rep)` with a plain-string pattern and a replacement holding
      no `$` pattern: only the FIRST occurrence of `pat`, wherever it sits, is
      replaced, and a string without `pat` is returned unchanged. */
  function ReplaceFirst(s: string, pat: string, rep: string): (r: string)
    ensures (forall j :: !OccursAt(s, pat, j)) ==> r == s
    ensures forall i | IsFirstOccurrence(s, pat, i) :: r == s[..i] + rep + s[i + |pat|..]
  {
    match IndexOf(s, pat)
    case None => s
    case Some(i) => s[..i] + rep + s[i + |pat|..]
  }

  /** Replacing the first occurrence changes nothing but that occurrence: the
      text before and after it is untouched. */
  lemma ReplaceFirstKeepsRest(s: string, pat: string, rep: string, i: nat)
    requires IsFirstOccurrence(s, pat, i)
    ensures var r := ReplaceFirst(s, pat, rep);
      && |r| == |s| - |pat| + |rep|
      && r[..i] == s[..i]
      && r[i..i + |rep|] == rep
      && r[i + |rep|..] == s[i + |pat|..]
  {
    var head, tail := s[..i], s[i + |pat|..];
    var r := head + rep + tail;
    assert ReplaceFirst(s, pat, rep) == r;
    assert r[..i] == head;
    assert r[i..i + |rep|] == rep;
    assert r[i + |rep|..] == tail;
  }

  /** The replacement can be undone: putting `pat` back where `rep` now stands
      recovers `s`. */
  lemma ReplaceFirstUndo(s: string, pat: string, rep: string, i: nat)
    requires IsFirstOccurrence(s, pat, i)
    ensures var r := ReplaceFirst(s, pat, rep);
      i + |rep| <= |r| && r[..i] + pat + r[i + |rep|..] == s
  {
    ReplaceFirstKeepsRest(s, pat, rep, i);
    var r := ReplaceFirst(s, pat, rep);
    assert s == s[..i] + s[i..i + |pat|] + s[i + |pat|..];
    assert r[..i] + pat + r[i + |rep|..] == s[..i] + pat + s[i + |pat|..];
  }

  /** A string that starts with `pat` has exactly that leading `pat` replaced. */
  lemma ReplaceFirstLeading(pat: string, rep: string, t: string)
    ensures ReplaceFirst(pat + t, pat, rep) == rep + t
  {
    var s := pat + t;
    assert s[0..|pat|] == pat;
    assert IndexOfFrom(s, pat, 0) == Some(0);
    assert s[..0] + rep + s[|pat|..] == rep + t;
  }
}
