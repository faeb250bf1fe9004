/**
 * The string operations the source uses: `Array.prototype.join`, its
 * inverse `String.prototype.split` with a one-character separator, and
 * `String.prototype.replace` with a string pattern (first occurrence only).
 */
module Strings {

  /** Number of occurrences of `ch` in `s`. */
  function Count(s: string, ch: char): nat
  {
    if |s| == 0 then 0 else (if s[0] == ch then 1 else 0) + Count(s[1..], ch)
  }

  /** `parts.join(sep)`: the parts in order with `sep` between neighbours. */
  function Join(parts: seq<string>, sep: char): (s: string)
    ensures |parts| == 0 ==> s == ""
    ensures |parts| == 1 ==> s == parts[0]
  {
    if |parts| == 0 then ""
    else if |parts| == 1 then parts[0]
    else parts[0] + [sep] + Join(parts[1..], sep)
  }

  /** `s.split(sep)`: the maximal separator-free pieces, in order; `""` splits to `[""]`. */
  function Split(s: string, sep: char): (parts: seq<string>)
    ensures |parts| == Count(s, sep) + 1
    ensures forall i :: 0 <= i < |parts| ==> sep !in parts[i]
  {
    if |s| == 0 then [""]
    else
      var rest := Split(s[1..], sep);
      if s[0] == sep then [""] + rest
      else [[s[0]] + rest[0]] + rest[1..]
  }

  /** Splitting text that holds no separator gives that text back whole. */
  lemma {:induction false} SplitWithoutSeparator(p: string, sep: char)
    requires sep !in p
    ensures Split(p, sep) == [p]
  {
    if |p| > 0 {
      SplitWithoutSeparator(p[1..], sep);
      assert [p[0]] + p[1..] == p;
    }
  }

  /** A separator-free first piece followed by the separator splits off as one part. */
  lemma {:induction false} SplitAfterPiece(p: string, sep: char, t: string)
    requires sep !in p
    ensures Split(p + [sep] + t, sep) == [p] + Split(t, sep)
  {
    var s := p + [sep] + t;
    if |p| == 0 {
      assert s[1..] == t;
    } else {
      assert s[1..] == p[1..] + [sep] + t;
      SplitAfterPiece(p[1..], sep, t);
      assert [p[0]] + p[1..] == p;
    }
  }

  /** Splitting a join gives the parts back, when no part holds the separator. */
  lemma {:induction false} SplitJoin(parts: seq<string>, sep: char)
    requires |parts| >= 1
    requires forall i :: 0 <= i < |parts| ==> sep !in parts[i]
    ensures Split(Join(parts, sep), sep) == parts
  {
    if |parts| == 1 {
      SplitWithoutSeparator(parts[0], sep);
    } else {
      SplitJoin(parts[1..], sep);
      SplitAfterPiece(parts[0], sep, Join(parts[1..], sep));
      assert [parts[0]] + parts[1..] == parts;
    }
  }

  /** Joining what a split produced rebuilds the text. */
  lemma {:induction false} JoinSplit(s: string, sep: char)
    ensures Join(Split(s, sep), sep) == s
  {
    if |s| > 0 {
      var rest := Split(s[1..], sep);
      JoinSplit(s[1..], sep);
      if s[0] == sep {
        assert ([""] + rest)[1..] == rest;
        assert [s[0]] + s[1..] == s;
      } else if |rest| == 1 {
        assert [s[0]] + s[1..] == s;
      } else {
        var parts := [[s[0]] + rest[0]] + rest[1..];
        assert parts[1..] == rest[1..];
        assert Join(rest, sep) == rest[0] + [sep] + Join(rest[1..], sep);
        assert [s[0]] + s[1..] == s;
      }
    }
  }

  /** A join of separator-free parts holds one separator fewer than it has parts. */
  lemma JoinSeparatorCount(parts: seq<string>, sep: char)
    requires |parts| >= 1
    requires forall i :: 0 <= i < |parts| ==> sep !in parts[i]
    ensures Count(Join(parts, sep), sep) == |parts| - 1
  {
    SplitJoin(parts, sep);
  }

  /** `pattern` occurs in `s` starting at index `i`. */
  predicate OccursAt(s: string, pattern: string, i: int)
  {
    0 <= i && i + |pattern| <= |s| && s[i..i + |pattern|] == pattern
  }

  /** `s.replace(pattern, replacement)` for a string pattern: only the first occurrence is replaced. */
  function ReplaceFirst(s: string, pattern: string, replacement: string): (r: string)
    ensures (forall i :: !OccursAt(s, pattern, i)) ==> r == s
    ensures OccursAt(s, pattern, 0) ==> r == replacement + s[|pattern|..]
    decreases |s|
  {
    if |pattern| == 0 then
      assert OccursAt(s, pattern, 0);
      replacement + s
    else if |s| < |pattern| then s
    else if s[..|pattern|] == pattern then
      assert OccursAt(s, pattern, 0);
      replacement + s[|pattern|..]
    else
      var r := [s[0]] + ReplaceFirst(s[1..], pattern, replacement);
      TailOccurrencesShift(s, pattern);
      assert [s[0]] + s[1..] == s;
      r
  }

  /** Every occurrence in the tail is an occurrence in the whole text, one place later. */
  lemma TailOccurrencesShift(s: string, pattern: string)
    requires |s| > 0
    ensures forall i :: OccursAt(s[1..], pattern, i) ==> OccursAt(s, pattern, i + 1)
  {
    forall i | OccursAt(s[1..], pattern, i) ensures OccursAt(s, pattern, i + 1) {
      OccursInTail(s, pattern, i + 1);
    }
  }

  /** An occurrence past the first character is an occurrence in the tail, one place earlier. */
  lemma OccursInTail(s: string, pattern: string, i: int)
    requires 0 < i
    ensures OccursAt(s, pattern, i) <==> |s| > 0 && OccursAt(s[1..], pattern, i - 1)
  {
    if OccursAt(s, pattern, i) {
      assert s[1..][i - 1..i - 1 + |pattern|] == s[i..i + |pattern|];
    }
    if |s| > 0 && OccursAt(s[1..], pattern, i - 1) {
      assert s[1..][i - 1..i - 1 + |pattern|] == s[i..i + |pattern|];
    }
  }

  /** Without an occurrence at the start, the first character is kept and the rest is searched. */
  lemma ReplaceFirstSkips(s: string, pattern: string, replacement: string)
    requires 0 < |pattern| <= |s| && !OccursAt(s, pattern, 0)
    ensures ReplaceFirst(s, pattern, replacement) == [s[0]] + ReplaceFirst(s[1..], pattern, replacement)
  {
  }

  /** Replacing a slice that starts after the first character is replacing it in the tail. */
  lemma SpliceInTail(s: string, i: int, n: nat, x: string)
    requires 0 < i && i + n <= |s|
    ensures s[..i] + x + s[i + n..] == [s[0]] + (s[1..][..i - 1] + x + s[1..][i - 1 + n..])
  {
    assert s[1..][..i - 1] == s[1..i];
    assert s[1..][i - 1 + n..] == s[i + n..];
    assert s[..i] == [s[0]] + s[1..i];
  }

  /** The replacement lands exactly at the first occurrence, wherever that is; the rest is kept. */
  lemma {:induction false} ReplaceFirstOccurrence(s: string, pattern: string, replacement: string, i: int)
    requires OccursAt(s, pattern, i)
    requires forall j :: 0 <= j < i ==> !OccursAt(s, pattern, j)
    ensures ReplaceFirst(s, pattern, replacement) == s[..i] + replacement + s[i + |pattern|..]
    decreases i
  {
    if i > 0 {
      var tail := s[1..];
      var n := |pattern|;
      assert ReplaceFirst(tail, pattern, replacement) == tail[..i - 1] + replacement + tail[i - 1 + n..] by {
        OccursInTail(s, pattern, i);
        forall j | 0 <= j < i - 1 ensures !OccursAt(tail, pattern, j) {
          OccursInTail(s, pattern, j + 1);
        }
        ReplaceFirstOccurrence(tail, pattern, replacement, i - 1);
      }
      calc {
        ReplaceFirst(s, pattern, replacement);
        { assert !OccursAt(s, pattern, 0);
          ReplaceFirstSkips(s, pattern, replacement); }
        [s[0]] + ReplaceFirst(tail, pattern, replacement);
        [s[0]] + (tail[..i - 1] + replacement + tail[i - 1 + n..]);
        { SpliceInTail(s, i, n, replacement); }
        s[..i] + replacement + s[i + n..];
      }
    }
  }
}
