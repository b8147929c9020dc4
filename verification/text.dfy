/**
  The string and byte-string primitives the adapter relies on: Python's `find`,
  `in`, `startswith`, `endswith`, `str.join`, `lstrip`/`rstrip` of one character,
  `strip`, `split(sep)[0]` on a one-character separator, and `lower`. Byte strings are modelled as `string` too, one char per byte.
 */
module Text {

  /** `pat` occurs in `s` starting at index `i`. */
  predicate OccursAt(s: string, pat: string, i: int)
  {
    0 <= i && i + |pat| <= |s| && s[i..i + |pat|] == pat
  }

  /** Python's `pat in s` on strings and byte strings. */
  predicate Contains(s: string, pat: string)
  {
    exists i | 0 <= i <= |s| - |pat| :: OccursAt(s, pat, i)
  }

  /** Search from index `from` on; -1 when there is no occurrence at or after it. */
  function FindFrom(s: string, pat: string, from: nat): (r: int)
    requires from <= |s|
    ensures r == -1 || (from <= r && OccursAt(s, pat, r))
    ensures r == -1 ==> forall i :: from <= i <= |s| ==> !OccursAt(s, pat, i)
    ensures r != -1 ==> forall i :: from <= i < r ==> !OccursAt(s, pat, i)
    decreases |s| - from
  {
    if from + |pat| > |s| then -1
    else if s[from..from + |pat|] == pat then from
    else FindFrom(s, pat, from + 1)
  }

  /** Python's `s.find(pat)`: the index of the first occurrence, or -1. */
  function Find(s: string, pat: string): (r: int)
    ensures r == -1 <==> !Contains(s, pat)
    ensures r != -1 ==> OccursAt(s, pat, r) && forall i :: 0 <= i < r ==> !OccursAt(s, pat, i)
  {
    FindFrom(s, pat, 0)
  }

  /** A concatenation starts with its left part, however the right part is nested. */
  lemma StartsWithLeft(a: string, b: string, c: string)
    ensures StartsWith(a + (b + c), a + b)
  {
    assert (a + (b + c))[..|a + b|] == a + b;
  }

  /** A concatenation contains its left part. */
  lemma ContainsLeft(a: string, b: string)
    ensures Contains(a + b, a)
  {
    assert (a + b)[0..|a|] == a;
    assert OccursAt(a + b, a, 0);
  }

  /** What the right part of a concatenation contains, the whole contains. */
  lemma ContainsInRight(a: string, b: string, pat: string)
    requires Contains(b, pat)
    ensures Contains(a + b, pat)
  {
    var i :| 0 <= i <= |b| - |pat| && OccursAt(b, pat, i);
    assert (a + b)[|a| + i..|a| + i + |pat|] == b[i..i + |pat|];
    assert OccursAt(a + b, pat, |a| + i);
  }

  /** Text that follows a known prefix is contained in the whole. */
  lemma ContainsAfterPrefix(s: string, prefix: string, pat: string)
    requires StartsWith(s, prefix + pat)
    ensures Contains(s, pat)
  {
    assert s[|prefix|..|prefix| + |pat|] == (prefix + pat)[|prefix|..];
    assert OccursAt(s, pat, |prefix|);
  }

  /** Python's `sep.join(parts)`. */
  function Join(parts: seq<string>, sep: string): (r: string)
    ensures |parts| == 0 ==> r == ""
    ensures |parts| == 1 ==> r == parts[0]
    ensures |parts| > 0 ==> |r| == TotalLength(parts) + (|parts| - 1) * |sep|
  {
    if |parts| == 0 then ""
    else if |parts| == 1 then parts[0]
    else parts[0] + sep + Join(parts[1..], sep)
  }

  /** Joining one more part appends the separator and that part; with the base cases this fixes Join's contents. */
  lemma {:induction false} JoinSnoc(parts: seq<string>, x: string, sep: string)
    requires |parts| > 0
    ensures Join(parts + [x], sep) == Join(parts, sep) + sep + x
    decreases |parts|
  {
    if |parts| == 1 {
      assert (parts + [x])[1..] == [x];
    } else {
      assert (parts + [x])[1..] == parts[1..] + [x];
      JoinSnoc(parts[1..], x, sep);
    }
  }

  /** Sum of the lengths of the parts. */
  function TotalLength(parts: seq<string>): nat
  {
    if |parts| == 0 then 0 else |parts[0]| + TotalLength(parts[1..])
  }

  /** Python's `s.startswith(p)`. */
  predicate StartsWith(s: string, p: string)
  {
    |p| <= |s| && s[..|p|] == p
  }

  /** Python's `s.endswith(p)`. */
  predicate EndsWith(s: string, p: string)
  {
    |p| <= |s| && s[|s| - |p|..] == p
  }

  /** Python's `s.lstrip(c)` for a single character `c`. */
  function LStrip(s: string, c: char): (r: string)
    ensures |r| <= |s| && r == s[|s| - |r|..]
    ensures |r| == 0 || r[0] != c
    ensures forall i :: 0 <= i < |s| - |r| ==> s[i] == c
  {
    if |s| > 0 && s[0] == c then
      var r := LStrip(s[1..], c);
      assert s[1..][|s| - 1 - |r|..] == s[|s| - |r|..];
      r
    else s
  }

  /** Python's `s.rstrip(c)` for a single character `c`. */
  function RStrip(s: string, c: char): (r: string)
    ensures |r| <= |s| && r == s[..|r|]
    ensures |r| == 0 || r[|r| - 1] != c
    ensures forall i :: |r| <= i < |s| ==> s[i] == c
  {
    if |s| > 0 && s[|s| - 1] == c then RStrip(s[..|s| - 1], c) else s
  }

  /** Lower-casing of one character, ASCII letters only. */
  function LowerChar(c: char): (r: char)
    ensures 'A' <= c <= 'Z' ==> r as int == c as int + 32
    ensures !('A' <= c <= 'Z') ==> r == c
  {
    if 'A' <= c <= 'Z' then (c as int + 32) as char else c
  }

  /** Python's `s.lower()`, restricted to ASCII letters. */
  function Lower(s: string): (r: string)
    ensures |r| == |s|
    ensures forall i :: 0 <= i < |s| ==> r[i] == LowerChar(s[i])
  {
    if |s| == 0 then "" else [LowerChar(s[0])] + Lower(s[1..])
  }

  /** Lower-casing twice changes nothing more. */
  lemma {:induction false} LowerIdempotent(s: string)
    ensures Lower(Lower(s)) == Lower(s)
    decreases |s|
  {
    if |s| > 0 {
      LowerIdempotent(s[1..]);
      assert Lower(s)[1..] == Lower(s[1..]);
    }
  }

  /**
    The ASCII characters Python's `str.strip()` removes: tab, line feed,
    vertical tab, form feed, carriage return (9 to 13), the file, group,
    record and unit separators (28 to 31), and space (32).
   */
  predicate IsSpace(c: char)
  {
    9 <= c as int <= 13 || 28 <= c as int <= 32
  }

  /** `s.lstrip()`: drops leading whitespace. */
  function TrimLeft(s: string): (r: string)
    ensures |r| <= |s| && r == s[|s| - |r|..]
    ensures |r| == 0 || !IsSpace(r[0])
    ensures forall i :: 0 <= i < |s| - |r| ==> IsSpace(s[i])
  {
    if |s| > 0 && IsSpace(s[0]) then TrimLeft(s[1..]) else s
  }

  /** `s.rstrip()`: drops trailing whitespace. */
  function TrimRight(s: string): (r: string)
    ensures |r| <= |s| && r == s[..|r|]
    ensures |r| == 0 || !IsSpace(r[|r| - 1])
    ensures forall i :: |r| <= i < |s| ==> IsSpace(s[i])
  {
    if |s| > 0 && IsSpace(s[|s| - 1]) then TrimRight(s[..|s| - 1]) else s
  }

  /**
    `r` is the slice of `s` at offset `a` and everything of `s` around it is
    whitespace.
   */
  predicate StrippedAt(s: string, r: string, a: int)
  {
    0 <= a && a + |r| <= |s| && r == s[a..a + |r|]
    && (forall i :: 0 <= i < a ==> IsSpace(s[i]))
    && (forall i :: a + |r| <= i < |s| ==> IsSpace(s[i]))
  }

  /**
    `s.strip()`: the text without its leading and trailing whitespace. The result
    is a slice of `s` with only whitespace around it, and neither of its ends is
    whitespace.
   */
  function Strip(s: string): (r: string)
    ensures |r| == 0 || (!IsSpace(r[0]) && !IsSpace(r[|r| - 1]))
    ensures exists a :: StrippedAt(s, r, a)
  {
    var r := TrimRight(TrimLeft(s));
    TrimBoth(s);
    r
  }

  /** Trimming both ends leaves a slice with only whitespace around it. */
  lemma TrimBoth(s: string)
    ensures StrippedAt(s, TrimRight(TrimLeft(s)), |s| - |TrimLeft(s)|)
  {
    var t := TrimLeft(s);
    SuffixThenPrefix(s, t, TrimRight(t), |s| - |t|);
  }

  /**
    A prefix `r` of a suffix `t` of `s` is a slice of `s` with whitespace around
    it when what each cut dropped was whitespace.
   */
  lemma SuffixThenPrefix(s: string, t: string, r: string, a: int)
    requires 0 <= a <= |s| && t == s[a..] && |r| <= |t| && r == t[..|r|]
    requires forall i :: 0 <= i < a ==> IsSpace(s[i])
    requires forall i :: |r| <= i < |t| ==> IsSpace(t[i])
    ensures StrippedAt(s, r, a)
  {
    assert r == s[a..a + |r|];
    forall i | a + |r| <= i < |s|
      ensures IsSpace(s[i])
    {
      assert s[i] == t[i - a];
    }
  }

  /** Text made only of whitespace, the ASCII separators included, strips to nothing. */
  lemma StripAllSpace(s: string)
    requires forall i :: 0 <= i < |s| ==> IsSpace(s[i])
    ensures Strip(s) == ""
  {
    StripIsUnique(s, "", 0);
  }

  /** A stripped slice is empty exactly when the whole text is whitespace. */
  lemma StrippedEmpty(s: string, r: string, a: int)
    requires StrippedAt(s, r, a)
    requires |r| == 0 || (!IsSpace(r[0]) && !IsSpace(r[|r| - 1]))
    ensures |r| == 0 <==> forall i :: 0 <= i < |s| ==> IsSpace(s[i])
  {
    if |r| > 0 {
      assert s[a] == r[0];
    }
  }

  /** The two ensures of Strip fix its result: any whitespace-free slice with only whitespace around it is the strip. */
  lemma StripIsUnique(s: string, r: string, a: int)
    requires StrippedAt(s, r, a)
    requires |r| == 0 || (!IsSpace(r[0]) && !IsSpace(r[|r| - 1]))
    ensures r == Strip(s)
  {
    var q := Strip(s);
    var b := StripWitness(s);
    SameStripped(s, r, a, q, b);
  }

  /** The offset at which Strip's result sits in its input. */
  lemma StripWitness(s: string) returns (b: int)
    ensures StrippedAt(s, Strip(s), b)
  {
    b :| StrippedAt(s, Strip(s), b);
  }

  /** Two stripped slices of the same text, neither with whitespace at its ends, are equal. */
  lemma SameStripped(s: string, r: string, a: int, q: string, b: int)
    requires StrippedAt(s, r, a) && StrippedAt(s, q, b)
    requires |r| == 0 || (!IsSpace(r[0]) && !IsSpace(r[|r| - 1]))
    requires |q| == 0 || (!IsSpace(q[0]) && !IsSpace(q[|q| - 1]))
    ensures r == q
  {
    StrippedEmpty(s, r, a);
    StrippedEmpty(s, q, b);
    if |r| > 0 {
      SameStart(s, r, a, q, b);
      SameStart(s, q, b, r, a);
      SameEnd(s, r, a, q, b);
      SameEnd(s, q, b, r, a);
    }
  }

  /** A stripped slice starts no later than any other one starting with a non-space. */
  lemma SameStart(s: string, r: string, a: int, q: string, b: int)
    requires StrippedAt(s, r, a) && StrippedAt(s, q, b)
    requires |q| > 0 && !IsSpace(q[0])
    ensures a <= b
  {
    assert s[b] == q[0];
  }

  /** A stripped slice ends no earlier than any other one ending with a non-space. */
  lemma SameEnd(s: string, r: string, a: int, q: string, b: int)
    requires StrippedAt(s, r, a) && StrippedAt(s, q, b)
    requires |q| > 0 && !IsSpace(q[|q| - 1])
    ensures b + |q| <= a + |r|
  {
    assert s[b + |q| - 1] == q[|q| - 1];
  }

  /** Texts whose first characters differ do not start with one another. */
  lemma FirstCharDiffers(s: string, p: string)
    requires |s| > 0 && |p| > 0 && s[0] != p[0]
    ensures !StartsWith(s, p)
  {
    if |p| <= |s| {
      assert s[..|p|][0] == s[0];
    }
  }

  /** Text with no whitespace at either end is its own strip. */
  lemma StripTrimmed(s: string)
    requires |s| > 0 && !IsSpace(s[0]) && !IsSpace(s[|s| - 1])
    ensures Strip(s) == s
  {
  }

  /** `s.split(sep)[0]` for a one-character separator: the text before the first `sep`. */
  function BeforeFirst(s: string, sep: char): (r: string)
    ensures StartsWith(s, r)
    ensures sep !in r
    ensures |r| < |s| ==> s[|r|] == sep
  {
    if |s| == 0 || s[0] == sep then "" else [s[0]] + BeforeFirst(s[1..], sep)
  }

  /** The text before the first separator, when the separator does occur. */
  lemma {:induction false} BeforeFirstAt(a: string, sep: char, b: string)
    requires sep !in a
    ensures BeforeFirst(a + [sep] + b, sep) == a
    decreases |a|
  {
    if |a| == 0 {
      assert (a + [sep] + b)[0] == sep;
    } else {
      assert (a + [sep] + b)[1..] == a[1..] + [sep] + b;
      BeforeFirstAt(a[1..], sep, b);
    }
  }

  /** Without the separator the whole text is kept. */
  lemma {:induction false} BeforeFirstAbsent(s: string, sep: char)
    requires sep !in s
    ensures BeforeFirst(s, sep) == s
    decreases |s|
  {
    if |s| > 0 {
      BeforeFirstAbsent(s[1..], sep);
    }
  }
}
