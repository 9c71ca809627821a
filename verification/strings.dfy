/** String operations of the JavaScript runtime that the handlers rely on:
    `split` with a one-character separator, `join`, taking the last or the
    first piece of a split, `startsWith` and `includes`. */
module Strings {

  /** `s` begins with `p` (JavaScript's `s.startsWith(p)`). */
  predicate StartsWith(s: string, p: string)
  {
    |p| <= |s| && s[..|p|] == p
  }

  /** A string starts with each of its prefixes. */
  lemma StartsWithAppend(p: string, t: string)
    ensures StartsWith(p + t, p)
  {
    assert (p + t)[..|p|] == p;
  }

  /** Appending to a string keeps its prefixes. */
  lemma StartsWithExtend(s: string, p: string, t: string)
    requires StartsWith(s, p)
    ensures StartsWith(s + t, p)
  {
    assert (s + t)[..|p|] == s[..|p|];
  }

  /** A prefix of a prefix is a prefix. */
  lemma StartsWithTrans(s: string, p: string, q: string)
    requires StartsWith(s, p) && StartsWith(p, q)
    ensures StartsWith(s, q)
  {
    assert s[..|q|] == s[..|p|][..|q|];
  }

  /** `s.includes(t)`: `t` occurs in `s` at some position. */
  predicate Contains(s: string, t: string)
  {
    exists i :: 0 <= i <= |s| - |t| && OccursAt(s, t, i)
  }

  /** `t` occurs in `s` starting at position `i`. */
  predicate OccursAt(s: string, t: string, i: int)
  {
    0 <= i <= |s| - |t| && s[i..i + |t|] == t
  }

  /** The pieces of `s` between occurrences of `sep`, as
      `s.split(sep)` with a one-character separator returns them. */
  function Split(s: string, sep: char): (parts: seq<string>)
    ensures |parts| >= 1
    ensures forall i :: 0 <= i < |parts| ==> sep !in parts[i]
    decreases |s|
  {
    if |s| == 0 then [""]
    else if s[0] == sep then [""] + Split(s[1..], sep)
    else
      var rest := Split(s[1..], sep);
      [[s[0]] + rest[0]] + rest[1..]
  }

  /** `parts.join(sep)`. */
  function Join(parts: seq<string>, sep: char): string
  {
    if |parts| == 0 then ""
    else if |parts| == 1 then parts[0]
    else parts[0] + [sep] + Join(parts[1..], sep)
  }

  /** Joining the pieces of a split gives back the string. */
  lemma {:induction false} JoinSplit(s: string, sep: char)
    ensures Join(Split(s, sep), sep) == s
    decreases |s|
  {
    if |s| == 0 {
    } else if s[0] == sep {
      JoinSplit(s[1..], sep);
      var rest := Split(s[1..], sep);
      assert Split(s, sep) == [""] + rest;
      assert ([""] + rest)[1..] == rest;
    } else {
      JoinSplit(s[1..], sep);
      var rest := Split(s[1..], sep);
      var parts := Split(s, sep);
      assert parts == [[s[0]] + rest[0]] + rest[1..];
      if |rest| == 1 {
        assert Join(parts, sep) == [s[0]] + rest[0];
      } else {
        assert parts[1..] == rest[1..];
        assert Join(rest, sep) == rest[0] + [sep] + Join(rest[1..], sep);
        assert Join(parts, sep) == [s[0]] + rest[0] + [sep] + Join(rest[1..], sep);
        assert s == [s[0]] + s[1..];
      }
    }
  }

  /** Splitting a join of separator-free pieces gives back the pieces. */
  lemma {:induction false} SplitJoin(parts: seq<string>, sep: char)
    requires |parts| >= 1
    requires forall i :: 0 <= i < |parts| ==> sep !in parts[i]
    ensures Split(Join(parts, sep), sep) == parts
    decreases |parts|
  {
    if |parts| == 1 {
      SplitNoSeparator(parts[0], sep);
    } else {
      SplitJoin(parts[1..], sep);
      SplitAfterPiece(parts[0], Join(parts[1..], sep), sep);
    }
  }

  /** A string without the separator splits into itself alone. */
  lemma {:induction false} SplitNoSeparator(s: string, sep: char)
    requires sep !in s
    ensures Split(s, sep) == [s]
    decreases |s|
  {
    if |s| > 0 {
      SplitNoSeparator(s[1..], sep);
      assert s == [s[0]] + s[1..];
    }
  }

  /** Splitting `p + [sep] + t`, where `p` has no separator, yields `p`
      followed by the pieces of `t`. */
  lemma {:induction false} SplitAfterPiece(p: string, t: string, sep: char)
    requires sep !in p
    ensures Split(p + [sep] + t, sep) == [p] + Split(t, sep)
    decreases |p|
  {
    if |p| == 0 {
      assert p + [sep] + t == [sep] + t;
      assert ([sep] + t)[1..] == t;
    } else {
      var s := p + [sep] + t;
      assert s[0] == p[0];
      assert s[1..] == p[1..] + [sep] + t;
      SplitAfterPiece(p[1..], t, sep);
      assert [p[0]] + p[1..] == p;
    }
  }

  /** The last piece of `s.split(sep)`, that is `s.split(sep).pop()`. */
  function LastSegment(s: string, sep: char): string
  {
    var parts := Split(s, sep);
    parts[|parts| - 1]
  }

  /** The first piece of `s.split(sep)`, that is `s.split(sep)[0]`. */
  function FirstSegment(s: string, sep: char): string
  {
    Split(s, sep)[0]
  }

  /** `r` is what follows the last `sep` in `s`, or all of `s` when `s`
      has no `sep`: an independent description of `LastSegment`. */
  predicate IsTailAfterLast(s: string, sep: char, r: string)
  {
    && |r| <= |s|
    && s[|s| - |r|..] == r
    && sep !in r
    && (|r| == |s| || s[|s| - |r| - 1] == sep)
  }

  /** `r` is what precedes the first `sep` in `s`, or all of `s` when `s`
      has no `sep`: an independent description of `FirstSegment`. */
  predicate IsHeadBeforeFirst(s: string, sep: char, r: string)
  {
    && |r| <= |s|
    && s[..|r|] == r
    && sep !in r
    && (|r| == |s| || s[|r|] == sep)
  }

  /** How the last piece of a split of a non-empty string relates to the
      last piece of a split of its tail. */
  lemma LastSegmentStep(s: string, sep: char)
    requires |s| > 0
    ensures var rest := Split(s[1..], sep);
            LastSegment(s, sep) ==
              if s[0] != sep && |rest| == 1 then [s[0]] + rest[0] else LastSegment(s[1..], sep)
  {
  }

  /** `LastSegment` is exactly the text after the last separator. */
  lemma {:induction false} LastSegmentIsTail(s: string, sep: char)
    ensures IsTailAfterLast(s, sep, LastSegment(s, sep))
    decreases |s|
  {
    if |s| > 0 {
      LastSegmentIsTail(s[1..], sep);
      LastSegmentStep(s, sep);
      var rest := Split(s[1..], sep);
      if s[0] != sep && |rest| == 1 {
        JoinSplit(s[1..], sep);
        TailWhole(s, sep);
      } else {
        var r := LastSegment(s[1..], sep);
        if s[0] != sep && |r| == |s| - 1 {
          SplitNoSeparator(s[1..], sep);
        }
        TailOfTail(s, sep, r);
      }
    }
  }

  /** The text after the last separator is unique: two strings that both
      meet the description are equal. */
  lemma TailUnique(s: string, sep: char, r1: string, r2: string)
    requires IsTailAfterLast(s, sep, r1) && IsTailAfterLast(s, sep, r2)
    ensures r1 == r2
  {
  }

  /** A separator-free string is its own tail. */
  lemma TailWhole(s: string, sep: char)
    requires |s| > 0 && s[0] != sep && sep !in s[1..]
    ensures IsTailAfterLast(s, sep, [s[0]] + s[1..])
  {
    assert s == [s[0]] + s[1..];
  }

  /** A tail of `s[1..]` that is not all of `s[1..]` (or follows a leading
      separator) is a tail of `s`. */
  lemma TailOfTail(s: string, sep: char, r: string)
    requires |s| > 0
    requires IsTailAfterLast(s[1..], sep, r)
    requires s[0] == sep || |r| < |s| - 1
    ensures IsTailAfterLast(s, sep, r)
  {
    assert s[|s| - |r|..] == s[1..][|s| - 1 - |r|..];
  }

  /** `FirstSegment` is exactly the text before the first separator. */
  lemma {:induction false} FirstSegmentIsHead(s: string, sep: char)
    ensures IsHeadBeforeFirst(s, sep, FirstSegment(s, sep))
    decreases |s|
  {
    if |s| > 0 && s[0] != sep {
      FirstSegmentIsHead(s[1..], sep);
      assert s == [s[0]] + s[1..];
    }
  }

  /** The last segment is empty exactly when `s` ends with the separator
      or is empty. */
  lemma LastSegmentEmpty(s: string, sep: char)
    ensures LastSegment(s, sep) == "" <==> (|s| == 0 || s[|s| - 1] == sep)
  {
    LastSegmentIsTail(s, sep);
  }
}
