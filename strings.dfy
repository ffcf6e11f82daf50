/**
 * Python's built-in `str` operations that the bot relies on, over `string`
 * (a sequence of Unicode scalar values, as Python's `str` is a sequence of
 * code points): `p in s`, `s.find`, `s.split(sep)`, `sep.join(parts)`,
 * `s.split()`, `s.strip()`, `s.lower()` and `str(n)` for integers.
 */
module Strings {
  import opened Maybe
  import opened Seqs

  /** Python's `c.isspace()`: the characters that `split()` and `strip()` treat as whitespace. */
  predicate IsSpace(c: char) {
    || c == ' '
    || '\t' <= c <= '\r'
    || '\U{1c}' <= c <= '\U{1f}'
    || c == '\U{85}' || c == '\U{a0}' || c == '\U{1680}'
    || '\U{2000}' <= c <= '\U{200a}'
    || c == '\U{2028}' || c == '\U{2029}' || c == '\U{202f}' || c == '\U{205f}' || c == '\U{3000}'
  }

  /** No character of `s` is whitespace. */
  predicate NoSpace(s: string) {
    forall i | 0 <= i < |s| :: !IsSpace(s[i])
  }

  /** Every character of `s` is whitespace. */
  predicate AllSpace(s: string) {
    forall i | 0 <= i < |s| :: IsSpace(s[i])
  }

  // ---------------------------------------------------------------------------
  // Substring search: `p in s` and `s.find(p)`

  /** `p` occurs in `s` starting at index `i`. */
  predicate OccursAt(s: string, p: string, i: int) {
    0 <= i && i + |p| <= |s| && s[i..i + |p|] == p
  }

  /** Python's `p in s`. */
  predicate Contains(s: string, p: string) {
    exists i | 0 <= i <= |s| - |p| :: OccursAt(s, p, i)
  }

  /** A slice of the tail is the slice of the whole, one position later. */
  lemma TailSlice(s: string, lo: nat, hi: nat)
    requires 1 <= lo <= hi <= |s|
    ensures s[1..][lo - 1..hi - 1] == s[lo..hi]
  {
    assert |s[1..][lo - 1..hi - 1]| == |s[lo..hi]|;
    forall k | 0 <= k < hi - lo
      ensures s[1..][lo - 1..hi - 1][k] == s[lo..hi][k]
    {
    }
  }

  lemma OccursInTail(s: string, p: string)
    requires s != []
    ensures forall j :: 1 <= j ==> (OccursAt(s, p, j) <==> OccursAt(s[1..], p, j - 1))
  {
    forall j | 1 <= j
      ensures OccursAt(s, p, j) <==> OccursAt(s[1..], p, j - 1)
    {
      if j + |p| <= |s| {
        TailSlice(s, j, j + |p|);
      }
    }
  }

  /** `s` begins with `p`, compared character by character. */
  predicate StartsWith(s: string, p: string)
    decreases |p|
  {
    p == [] || (s != [] && s[0] == p[0] && StartsWith(s[1..], p[1..]))
  }

  lemma {:induction false} StartsWithOccurs(s: string, p: string)
    ensures StartsWith(s, p) <==> OccursAt(s, p, 0)
    decreases |p|
  {
    if p != [] && s != [] {
      StartsWithOccurs(s[1..], p[1..]);
      if OccursAt(s, p, 0) {
        assert s[1..][..|p| - 1] == s[..|p|][1..];
      }
      if StartsWith(s, p) {
        assert s[..|p|] == [s[0]] + s[1..][..|p| - 1];
      }
    }
  }

  /** Python's `s.find(p)`: the first index where `p` occurs, `None` for -1. */
  function IndexOf(s: string, p: string): (r: Option<nat>)
    ensures r.Some? ==> OccursAt(s, p, r.value)
    ensures r.None? <==> !Contains(s, p)
    decreases |s|
  {
    if StartsWith(s, p) then StartsWithOccurs(s, p); Some(0)
    else if s == [] then StartsWithOccurs(s, p); None
    else
      StartsWithOccurs(s, p);
      OccursInTail(s, p);
      match IndexOf(s[1..], p)
      case None => None
      case Some(k) => Some(k + 1)
  }

  /** `s.find(p)` finds the first occurrence: there is none before it. */
  lemma {:induction false} IndexOfIsFirst(s: string, p: string, j: nat)
    requires IndexOf(s, p).Some? && j < IndexOf(s, p).value
    ensures !OccursAt(s, p, j)
    decreases |s|
  {
    StartsWithOccurs(s, p);
    OccursInTail(s, p);
    if j > 0 {
      IndexOfIsFirst(s[1..], p, j - 1);
    }
  }

  /** An occurrence inside `b` is an occurrence inside `a + b + c`. */
  lemma {:induction false} ContainsInfix(a: string, b: string, c: string, p: string)
    requires Contains(b, p)
    ensures Contains(a + b + c, p)
  {
    var i :| 0 <= i <= |b| - |p| && OccursAt(b, p, i);
    assert (a + b + c)[|a| + i..|a| + i + |p|] == b[i..i + |p|];
    assert OccursAt(a + b + c, p, |a| + i);
  }

  /** Text appended after an occurrence keeps it. */
  lemma ContainsBefore(s: string, t: string, p: string)
    requires Contains(s, p)
    ensures Contains(s + t, p)
  {
    var i :| 0 <= i <= |s| - |p| && OccursAt(s, p, i);
    assert (s + t)[i..i + |p|] == s[i..i + |p|];
    assert OccursAt(s + t, p, i);
  }

  /** Text prepended before an occurrence keeps it. */
  lemma ContainsAfter(s: string, t: string, p: string)
    requires Contains(t, p)
    ensures Contains(s + t, p)
  {
    var i :| 0 <= i <= |t| - |p| && OccursAt(t, p, i);
    assert (s + t)[|s| + i..|s| + i + |p|] == t[i..i + |p|];
    assert OccursAt(s + t, p, |s| + i);
  }

  /** A string that contains `p` keeps containing it inside any slice that covers the occurrence. */
  lemma {:induction false} ContainsOfSlice(s: string, p: string, lo: int, hi: int)
    requires 0 <= lo <= hi <= |s|
    requires Contains(s[lo..hi], p)
    ensures Contains(s, p)
  {
    ContainsInfix(s[..lo], s[lo..hi], s[hi..], p);
    assert s[..lo] + s[lo..hi] + s[hi..] == s;
  }

  /** `[c] in s` is plain membership of the character. */
  lemma {:induction false} ContainsChar(s: string, c: char)
    ensures Contains(s, [c]) <==> c in s
  {
    if c in s {
      var i :| 0 <= i < |s| && s[i] == c;
      assert s[i..i + 1] == [c];
      assert OccursAt(s, [c], i);
    }
    if Contains(s, [c]) {
      var i :| 0 <= i <= |s| - 1 && OccursAt(s, [c], i);
      assert s[i] == s[i..i + 1][0];
    }
  }

  // ---------------------------------------------------------------------------
  // `s.split(sep)` and `sep.join(parts)`

  /** Python's `s.split(sep)` for a non-empty separator: the pieces between non-overlapping
      occurrences of `sep`, scanned from the left. */
  function Split(s: string, sep: string): (parts: seq<string>)
    requires sep != []
    ensures |parts| >= 1
    ensures !Contains(s, sep) ==> parts == [s]
    ensures Contains(s, sep) ==> |parts| >= 2
    decreases |s|
  {
    match IndexOf(s, sep)
    case None => [s]
    case Some(i) => [s[..i]] + Split(s[i + |sep|..], sep)
  }

  /** Python's `sep.join(parts)`. */
  function Join(sep: string, parts: seq<string>): string
  {
    if |parts| == 0 then ""
    else if |parts| == 1 then parts[0]
    else parts[0] + sep + Join(sep, parts[1..])
  }

  /** Joining the pieces of a split with the same separator gives back the original string. */
  lemma {:induction false} JoinSplit(s: string, sep: string)
    requires sep != []
    ensures Join(sep, Split(s, sep)) == s
    decreases |s|
  {
    match IndexOf(s, sep)
    case None =>
    case Some(i) =>
      JoinSplit(s[i + |sep|..], sep);
      JoinSplitAt(s, sep, i);
  }

  /** The step of `JoinSplit` at the first occurrence of the separator. */
  lemma JoinSplitAt(s: string, sep: string, i: nat)
    requires sep != [] && IndexOf(s, sep) == Some(i)
    requires Join(sep, Split(s[i + |sep|..], sep)) == s[i + |sep|..]
    ensures Join(sep, Split(s, sep)) == s
  {
    SplitAtIndex(s, sep, i, s[i + |sep|..]);
    JoinCons(sep, s[..i], Split(s[i + |sep|..], sep));
    OccurrenceSplits(s, sep, i);
  }

  /** Where the first occurrence of the separator is, the split takes the part before it and
      goes on after it. */
  lemma SplitAtIndex(s: string, sep: string, i: nat, rest: string)
    requires sep != [] && IndexOf(s, sep) == Some(i) && rest == s[i + |sep|..]
    ensures Split(s, sep) == [s[..i]] + Split(rest, sep)
  {
  }

  /** An occurrence of `p` at `i` splits `s` around it. */
  lemma OccurrenceSplits(s: string, p: string, i: nat)
    requires OccursAt(s, p, i)
    ensures s == s[..i] + p + s[i + |p|..]
  {
    SliceAround(s, i, i + |p|);
  }

  /** Joining one part more in front adds it and a separator. */
  lemma JoinCons(sep: string, first: string, rest: seq<string>)
    requires |rest| >= 1
    ensures Join(sep, [first] + rest) == first + sep + Join(sep, rest)
  {
    assert ([first] + rest)[1..] == rest;
  }

  /** A string is its part before `lo`, its slice from `lo` to `hi`, and its part from `hi`. */
  lemma SliceAround(s: string, lo: nat, hi: nat)
    requires lo <= hi <= |s|
    ensures s == s[..lo] + s[lo..hi] + s[hi..]
  {
  }

  /** No piece of a split contains the separator. */
  lemma {:induction false} SplitPiecesAvoidSeparator(s: string, sep: string)
    requires sep != []
    ensures forall k :: 0 <= k < |Split(s, sep)| ==> !Contains(Split(s, sep)[k], sep)
    decreases |s|
  {
    match IndexOf(s, sep)
    case None =>
    case Some(i) =>
      var rest := s[i + |sep|..];
      SplitPieces(s, sep, i);
      SplitPiecesAvoidSeparator(rest, sep);
      BeforeFirstAvoids(s, sep, i);
  }

  /** The pieces of a split at the first separator: the text before it, then the pieces of the
      text after it. */
  lemma SplitPieces(s: string, sep: string, i: nat)
    requires sep != [] && IndexOf(s, sep) == Some(i)
    ensures var pieces, rest := Split(s, sep), Split(s[i + |sep|..], sep);
      |pieces| == |rest| + 1 && pieces[0] == s[..i]
      && forall k | 1 <= k < |pieces| :: pieces[k] == rest[k - 1]
  {
    SplitAtIndex(s, sep, i, s[i + |sep|..]);
    ConsIndex(s[..i], Split(s[i + |sep|..], sep));
  }

  /** The text before the first separator does not contain it. */
  lemma BeforeFirstAvoids(s: string, sep: string, i: nat)
    requires sep != [] && IndexOf(s, sep) == Some(i)
    ensures !Contains(s[..i], sep)
  {
    if Contains(s[..i], sep) {
      var j :| 0 <= j <= i - |sep| && OccursAt(s[..i], sep, j);
      assert s[..i][j..j + |sep|] == s[j..j + |sep|];
      IndexOfIsFirst(s, sep, j);
      assert false;
    }
  }

  /** Every piece of a split occurs in the split string. */
  lemma {:induction false} SplitPieceOccurs(s: string, sep: string, k: nat)
    requires sep != [] && k < |Split(s, sep)|
    ensures Contains(s, Split(s, sep)[k])
    decreases |s|
  {
    match IndexOf(s, sep)
    case None =>
      assert OccursAt(s, s, 0) by { assert s[0..|s|] == s; }
    case Some(i) =>
      var rest := s[i + |sep|..];
      SplitPieces(s, sep, i);
      if k == 0 {
        assert OccursAt(s, s[..i], 0) by { assert s[0..i] == s[..i]; }
      } else {
        SplitPieceOccurs(rest, sep, k - 1);
        SuffixContains(s, i + |sep|, Split(rest, sep)[k - 1]);
      }
  }

  /** What a suffix contains, the whole text contains. */
  lemma SuffixContains(s: string, lo: nat, p: string)
    requires lo <= |s| && Contains(s[lo..], p)
    ensures Contains(s, p)
  {
    assert s[lo..|s|] == s[lo..];
    ContainsOfSlice(s, p, lo, |s|);
  }

  /** A position holding a character other than the first of `p` does not start an occurrence of `p`. */
  lemma NoOccurrenceAt(s: string, p: string, i: nat)
    requires p != [] && i < |s| && s[i] != p[0]
    ensures !OccursAt(s, p, i)
  {
    if i + |p| <= |s| {
      assert s[i..i + |p|][0] == s[i];
    }
  }

  /** A position where some character of `p` is not matched does not start an occurrence of `p`. */
  lemma MismatchAt(s: string, p: string, i: nat, k: nat)
    requires k < |p| && i + k < |s| && s[i + k] != p[k]
    ensures !OccursAt(s, p, i)
  {
    if i + |p| <= |s| {
      assert s[i..i + |p|][k] == s[i + k];
    }
  }

  /** When `a` avoids the first character of `p` and what follows is shorter than `p`, no
      occurrence fits. */
  lemma NotContainsBeforeShortTail(a: string, tail: string, p: string)
    requires p != [] && p[0] !in a && |tail| < |p|
    ensures !Contains(a + tail, p)
  {
    var s := a + tail;
    forall i | 0 <= i <= |s| - |p|
      ensures !OccursAt(s, p, i)
    {
      assert s[i] == a[i];
      NoOccurrenceAt(s, p, i);
    }
  }

  /** A string without the first character of `p` does not contain `p`. */
  lemma NotContainsWithoutFirst(s: string, p: string)
    requires p != [] && p[0] !in s
    ensures !Contains(s, p)
  {
    forall i | 0 <= i <= |s| - |p|
      ensures !OccursAt(s, p, i)
    {
      NoOccurrenceAt(s, p, i);
    }
  }

  /** When the first piece avoids the separator's first character, the split stops right after it. */
  lemma SplitAtFirst(a: string, sep: string, b: string)
    requires sep != [] && sep[0] !in a
    ensures Split(a + sep + b, sep) == [a] + Split(b, sep)
  {
    var s := a + sep + b;
    assert s[|a|..|a| + |sep|] == sep;
    assert OccursAt(s, sep, |a|);
    forall j | 0 <= j < |a|
      ensures !OccursAt(s, sep, j)
    {
      assert s[j] == a[j];
      NoOccurrenceAt(s, sep, j);
    }
    assert IndexOf(s, sep) == Some(|a|) by {
      if IndexOf(s, sep).value > |a| {
        IndexOfIsFirst(s, sep, |a|);
      }
    }
    assert s[|a| + |sep|..] == b;
    assert s[..|a|] == a;
  }

  /** Splitting undoes joining with the same separator when no part holds the separator's first
      character. */
  lemma {:induction false} SplitJoin(parts: seq<string>, sep: string)
    requires sep != [] && |parts| >= 1
    requires forall k :: 0 <= k < |parts| ==> sep[0] !in parts[k]
    ensures Split(Join(sep, parts), sep) == parts
  {
    if |parts| == 1 {
      NotContainsWithoutFirst(parts[0], sep);
    } else {
      var rest := parts[1..];
      assert forall k :: 0 <= k < |rest| ==> sep[0] !in rest[k] by {
        forall k | 0 <= k < |rest|
          ensures sep[0] !in rest[k]
        {
          assert rest[k] == parts[k + 1];
        }
      }
      SplitAtFirst(parts[0], sep, Join(sep, rest));
      SplitJoin(rest, sep);
      assert parts == [parts[0]] + rest;
    }
  }

  /** The first piece of a split is a prefix of the split string. */
  lemma SplitFirstIsPrefix(s: string, sep: string)
    requires sep != []
    ensures Split(s, sep)[0] == s[..|Split(s, sep)[0]|]
  {
  }

  /** Every part of a join occurs in the joined string. */
  lemma {:induction false} JoinContainsPart(sep: string, parts: seq<string>, k: nat)
    requires k < |parts|
    ensures Contains(Join(sep, parts), parts[k])
  {
    if |parts| == 1 || k == 0 {
      var j := Join(sep, parts);
      if |parts| > 1 {
        assert j == parts[0] + (sep + Join(sep, parts[1..]));
      }
      assert j[..|parts[0]|] == parts[0];
      assert OccursAt(j, parts[0], 0);
    } else {
      JoinContainsPart(sep, parts[1..], k - 1);
      ContainsInfix(parts[0] + sep, Join(sep, parts[1..]), "", parts[k]);
      assert parts[0] + sep + Join(sep, parts[1..]) + "" == Join(sep, parts);
    }
  }

  /** Containment is transitive: an occurrence inside an occurrence is an occurrence. */
  lemma ContainsTransitive(s: string, t: string, p: string)
    requires Contains(s, t) && Contains(t, p)
    ensures Contains(s, p)
  {
    var i :| 0 <= i <= |s| - |t| && OccursAt(s, t, i);
    ContainsOfSlice(s, p, i, i + |t|);
  }

  /** A character found in neither the separator nor any part is not in their join. */
  lemma {:induction false} JoinAvoidsChar(sep: string, parts: seq<string>, c: char)
    requires c !in sep
    requires forall k | 0 <= k < |parts| :: c !in parts[k]
    ensures c !in Join(sep, parts)
    decreases |parts|
  {
    if |parts| > 1 {
      assert forall k | 0 <= k < |parts| - 1 :: parts[1..][k] == parts[k + 1];
      JoinAvoidsChar(sep, parts[1..], c);
    }
  }

  /** Joining one part more appends the separator and that part. */
  lemma {:induction false} JoinSnoc(sep: string, parts: seq<string>, part: string)
    requires |parts| >= 1
    ensures Join(sep, parts + [part]) == Join(sep, parts) + sep + part
  {
    if |parts| == 1 {
      assert (parts + [part])[1..] == [part];
    } else {
      assert (parts + [part])[1..] == parts[1..] + [part];
      JoinSnoc(sep, parts[1..], part);
    }
  }

  // ---------------------------------------------------------------------------
  // Text built line by line

  /** Every line followed by a newline, as a loop doing `text += line + "\n"` builds it. */
  function Unlines(lines: seq<string>): string
    decreases |lines|
  {
    if lines == [] then "" else Unlines(lines[..|lines| - 1]) + lines[|lines| - 1] + "\n"
  }

  lemma UnlinesSnoc(lines: seq<string>, line: string)
    ensures Unlines(lines + [line]) == Unlines(lines) + line + "\n"
  {
    assert (lines + [line])[..|lines|] == lines;
  }

  /** Newline-terminated lines are the lines joined by newlines, with an empty last piece. */
  lemma {:induction false} UnlinesIsJoin(lines: seq<string>)
    ensures Unlines(lines) == Join("\n", lines + [""])
    decreases |lines|
  {
    if lines != [] {
      var init, last := lines[..|lines| - 1], lines[|lines| - 1];
      UnlinesIsJoin(init);
      assert lines == init + [last];
      if init == [] {
        assert lines + [""] == [last, ""];
      } else {
        JoinSnoc("\n", init, "");
        JoinSnoc("\n", init, last);
        JoinSnoc("\n", lines, "");
      }
    }
  }

  /** Splitting newline-terminated lines on `"\n"` gives the lines back, then one empty piece. */
  lemma SplitUnlines(lines: seq<string>)
    requires forall k :: 0 <= k < |lines| ==> '\n' !in lines[k]
    ensures Split(Unlines(lines), "\n") == lines + [""]
  {
    UnlinesIsJoin(lines);
    LinesThenEmptyAvoid(lines, '\n');
    SplitJoin(lines + [""], "\n");
  }

  /** Appending an empty line keeps every line free of a character. */
  lemma LinesThenEmptyAvoid(lines: seq<string>, c: char)
    requires forall k :: 0 <= k < |lines| ==> c !in lines[k]
    ensures forall k :: 0 <= k < |lines + [""]| ==> c !in (lines + [""])[k]
  {
    var parts := lines + [""];
    forall k | 0 <= k < |parts|
      ensures c !in parts[k]
    {
      if k < |lines| {
        assert parts[k] == lines[k];
      }
    }
  }

  /** The last element of a non-empty sequence: Python's `xs[-1]`. */
  function Last<T>(xs: seq<T>): T
    requires |xs| > 0
  {
    xs[|xs| - 1]
  }

  /** After a one-character separator, the last piece of a split depends only on what follows it. */
  lemma {:induction false} LastPieceAfterChar(a: string, b: string, c: char)
    ensures Last(Split(a + [c] + b, [c])) == Last(Split(b, [c]))
    decreases |a|
  {
    var i := FirstCharBefore(a, b, c);
    LastPieceAtIndex(a + [c] + b, [c], i);
    if i < |a| {
      LastPieceAfterChar(a[i + 1..], b, c);
    }
  }

  /** `a + [c] + b` has its first `c` no later than index `|a|`, and what follows it is
      `b` when it is exactly there and `a[i + 1..] + [c] + b` otherwise. */
  lemma FirstCharBefore(a: string, b: string, c: char) returns (i: nat)
    ensures IndexOf(a + [c] + b, [c]) == Some(i) && i <= |a|
    ensures (a + [c] + b)[i + 1..] == if i == |a| then b else a[i + 1..] + [c] + b
  {
    var s := a + [c] + b;
    assert OccursAt(s, [c], |a|) by { assert s[|a|..|a| + 1] == [c]; }
    i := IndexOf(s, [c]).value;
    assert i <= |a| by {
      if i > |a| {
        IndexOfIsFirst(s, [c], |a|);
      }
    }
    if i < |a| {
      assert s[i + 1..] == a[i + 1..] + [c] + b;
    } else {
      assert s[i + 1..] == b;
    }
  }

  /** The last piece of a split is the last piece of what follows the first separator. */
  lemma LastPieceAtIndex(s: string, sep: string, i: nat)
    requires sep != [] && IndexOf(s, sep) == Some(i)
    ensures Last(Split(s, sep)) == Last(Split(s[i + |sep|..], sep))
  {
    var rest := s[i + |sep|..];
    SplitAtIndex(s, sep, i, rest);
    LastOfCons(s[..i], Split(rest, sep));
  }

  lemma LastOfCons<T>(x: T, xs: seq<T>)
    requires |xs| >= 1
    ensures Last([x] + xs) == Last(xs)
  {
  }

  // ---------------------------------------------------------------------------
  // `s.split()` (no argument): the whitespace-separated words

  /** Length of the leading run of non-whitespace characters. */
  function WordLength(s: string): (n: nat)
    ensures n <= |s|
    ensures forall i :: 0 <= i < n ==> !IsSpace(s[i])
    ensures n < |s| ==> IsSpace(s[n])
    decreases |s|
  {
    if s == [] || IsSpace(s[0]) then 0 else 1 + WordLength(s[1..])
  }

  /** Python's `s.split()`: the maximal runs of non-whitespace characters, in order. */
  function Words(s: string): seq<string>
    decreases |s|
  {
    if s == [] then []
    else if IsSpace(s[0]) then Words(s[1..])
    else
      var n := WordLength(s);
      [s[..n]] + Words(s[n..])
  }

  /** Non-empty and without whitespace: what `split()` can return as a word. */
  predicate IsWord(w: string) {
    w != [] && NoSpace(w)
  }

  /** Every element of `Words(s)` is a word. */
  lemma {:induction false} WordsAreWords(s: string)
    ensures forall k :: 0 <= k < |Words(s)| ==> IsWord(Words(s)[k])
    decreases |s|
  {
    if s == [] {
    } else if IsSpace(s[0]) {
      WordsAreWords(s[1..]);
    } else {
      var n := WordLength(s);
      WordsAreWords(s[n..]);
      assert Words(s) == [s[..n]] + Words(s[n..]);
    }
  }

  /** A word followed by nothing or by whitespace is read as that word. */
  lemma WordLengthOfWord(w: string, rest: string)
    requires IsWord(w)
    requires rest == [] || IsSpace(rest[0])
    ensures WordLength(w + rest) == |w|
  {
    assert forall i :: 0 <= i < |w| ==> (w + rest)[i] == w[i];
    assert |w| < |w + rest| ==> (w + rest)[|w|] == rest[0];
  }

  /** Joining words with single spaces, then splitting on whitespace, gives the words back. */
  lemma {:induction false} WordsOfJoin(ws: seq<string>)
    requires forall k :: 0 <= k < |ws| ==> IsWord(ws[k])
    ensures Words(Join(" ", ws)) == ws
  {
    if |ws| == 0 {
    } else if |ws| == 1 {
      WordLengthOfWord(ws[0], "");
      assert ws[0] + "" == ws[0];
      assert ws[0][|ws[0]|..] == [];
    } else {
      var w, rest := ws[0], Join(" ", ws[1..]);
      var s := w + " " + rest;
      assert Join(" ", ws) == s;
      WordLengthOfWord(w, " " + rest);
      assert s == w + (" " + rest);
      assert s[|w|..] == " " + rest;
      assert (" " + rest)[1..] == rest;
      WordsOfJoin(ws[1..]);
      assert s[..|w|] == w;
    }
  }

  /** Whitespace appears only as single spaces between non-whitespace characters: the shape of
      `' '.join(s.split())`. */
  ghost predicate Normalized(s: string) {
    && (forall i | 0 <= i < |s| && IsSpace(s[i]) :: s[i] == ' ')
    && (s != [] ==> !IsSpace(s[0]) && !IsSpace(s[|s| - 1]))
    && (forall i, j | 0 <= i && j == i + 1 && j < |s| :: !IsSpace(s[i]) || !IsSpace(s[j]))
  }

  lemma {:induction false} JoinEnds(ws: seq<string>)
    requires |ws| >= 1
    requires forall k :: 0 <= k < |ws| ==> IsWord(ws[k])
    ensures var j := Join(" ", ws); |j| >= 1 && !IsSpace(j[0]) && !IsSpace(j[|j| - 1])
  {
    if |ws| > 1 {
      JoinEnds(ws[1..]);
      var j := Join(" ", ws);
      assert j == ws[0] + " " + Join(" ", ws[1..]);
      assert j[0] == ws[0][0];
    }
  }

  /** Words joined with single spaces form a normalized string. */
  lemma {:induction false} JoinNormalized(ws: seq<string>)
    requires forall k :: 0 <= k < |ws| ==> IsWord(ws[k])
    ensures Normalized(Join(" ", ws))
  {
    if |ws| == 1 {
      assert Join(" ", ws) == ws[0];
    } else if |ws| > 1 {
      var rest := Join(" ", ws[1..]);
      assert Join(" ", ws) == ws[0] + " " + rest;
      JoinNormalized(ws[1..]);
      JoinEnds(ws[1..]);
      WordSpaceNormalized(ws[0], rest);
    }
  }

  /** A word, one space and a non-empty normalised string make a normalised string. */
  lemma WordSpaceNormalized(w: string, rest: string)
    requires IsWord(w) && rest != [] && Normalized(rest)
    ensures Normalized(w + " " + rest)
  {
    var s := w + " " + rest;
    assert forall j :: 0 <= j < |w| ==> s[j] == w[j];
    assert forall j :: 0 <= j < |rest| ==> s[|w| + 1 + j] == rest[j];
    assert s[|w|] == ' ';
    forall i, j | 0 <= i && j == i + 1 && j < |s|
      ensures !IsSpace(s[i]) || !IsSpace(s[j])
    {
      if i + 1 < |w| {
      } else if i + 1 == |w| || i == |w| {
      } else {
        assert s[i] == rest[i - |w| - 1] && s[j] == rest[j - |w| - 1];
      }
    }
  }

  /** What follows a space in a normalized string is normalized and starts a word. */
  lemma NormalizedAfterSpace(s: string, n: nat)
    requires Normalized(s) && n < |s| && IsSpace(s[n])
    ensures s[n] == ' ' && n + 1 < |s| && !IsSpace(s[n + 1]) && Normalized(s[n + 1..])
  {
    var tail := s[n + 1..];
    assert forall i :: 0 <= i < |tail| ==> tail[i] == s[n + 1 + i];
    assert n + 1 < |s|;
    assert !IsSpace(s[n]) || !IsSpace(s[n + 1]);
    forall i, j | 0 <= i && j == i + 1 && j < |tail|
      ensures !IsSpace(tail[i]) || !IsSpace(tail[j])
    {
      assert !IsSpace(s[n + 1 + i]) || !IsSpace(s[n + 1 + j]);
    }
  }

  lemma WordsOfNonSpaceStart(s: string)
    requires s != [] && !IsSpace(s[0])
    ensures Words(s) == [s[..WordLength(s)]] + Words(s[WordLength(s)..])
    ensures Words(s) != []
  {
  }

  lemma SplitAround<T>(s: seq<T>, n: nat)
    requires n < |s|
    ensures s == s[..n] + [s[n]] + s[n + 1..]
  {
  }

  /** A normalized string is the single-space join of its own words. */
  lemma {:induction false} NormalizedIsJoinOfWords(s: string)
    requires Normalized(s)
    ensures Join(" ", Words(s)) == s
    decreases |s|
  {
    if s != [] {
      var n := WordLength(s);
      WordsOfNonSpaceStart(s);
      if n == |s| {
        assert s[n..] == [];
        assert s[..n] == s;
      } else {
        var tail := s[n + 1..];
        NormalizedAfterSpace(s, n);
        NormalizedIsJoinOfWords(tail);
        WordsOfNonSpaceStart(tail);
        assert Words(s[n..]) == Words(tail) by {
          assert s[n..][1..] == tail;
        }
        JoinCons(" ", s[..n], Words(tail));
        assert s == s[..n] + " " + tail by {
          SplitAround(s, n);
        }
      }
    }
  }

  // ---------------------------------------------------------------------------
  // `s.strip()`

  /** The first index at or after `i` whose character is not whitespace, or `|s|` when there is none. */
  function SkipSpace(s: string, i: nat): (j: nat)
    requires i <= |s|
    ensures i <= j <= |s|
    ensures forall k | i <= k < j :: IsSpace(s[k])
    ensures j < |s| ==> !IsSpace(s[j])
    decreases |s| - i
  {
    if i < |s| && IsSpace(s[i]) then SkipSpace(s, i + 1) else i
  }

  /** Walking back from `j` but not below `lo`, the first index whose preceding character is not
      whitespace, or `lo` when there is none. */
  function SkipSpaceBack(s: string, lo: nat, j: nat): (i: nat)
    requires lo <= j <= |s|
    ensures lo <= i <= j
    ensures forall k | i <= k < j :: IsSpace(s[k])
    ensures i > lo ==> !IsSpace(s[i - 1])
    decreases j
  {
    if j > lo && IsSpace(s[j - 1]) then SkipSpaceBack(s, lo, j - 1) else j
  }

  /** An index reached from `i` over whitespace only, and standing on a non-space or the end, is
      where `SkipSpace` stops. */
  lemma {:induction false} SkipSpaceUnique(s: string, i: nat, j: nat)
    requires i <= j <= |s|
    requires forall k | i <= k < j :: IsSpace(s[k])
    requires j < |s| ==> !IsSpace(s[j])
    ensures SkipSpace(s, i) == j
    decreases j - i
  {
    if i < j {
      SkipSpaceUnique(s, i + 1, j);
    }
  }

  /** The mirror image of `SkipSpaceUnique` for `SkipSpaceBack`. */
  lemma {:induction false} SkipSpaceBackUnique(s: string, lo: nat, i: nat, j: nat)
    requires lo <= i <= j <= |s|
    requires forall k | i <= k < j :: IsSpace(s[k])
    requires i > lo ==> !IsSpace(s[i - 1])
    ensures SkipSpaceBack(s, lo, j) == i
    decreases j - i
  {
    if i < j {
      SkipSpaceBackUnique(s, lo, i, j - 1);
    }
  }

  /** Where the result of `strip()` starts in its input. */
  function StripStart(s: string): (lo: nat)
    ensures lo <= |s|
  {
    SkipSpace(s, 0)
  }

  /** Where the result of `strip()` ends in its input. */
  function StripEnd(s: string): (hi: nat)
    ensures StripStart(s) <= hi <= |s|
  {
    SkipSpaceBack(s, StripStart(s), |s|)
  }

  /** Python's `s.strip()`: leading and trailing whitespace removed. */
  function Strip(s: string): string {
    s[StripStart(s)..StripEnd(s)]
  }

  /** `strip()` keeps a contiguous middle part of its input and removes only whitespace around it. */
  lemma StripIsMiddle(s: string)
    ensures StripStart(s) + |Strip(s)| <= |s|
    ensures Strip(s) == s[StripStart(s)..StripStart(s) + |Strip(s)|]
    ensures AllSpace(s[..StripStart(s)]) && AllSpace(s[StripStart(s) + |Strip(s)|..])
    ensures Strip(s) == [] || (!IsSpace(Strip(s)[0]) && !IsSpace(Strip(s)[|Strip(s)| - 1]))
  {
    var lo, hi := StripStart(s), StripEnd(s);
    assert |Strip(s)| == hi - lo;
    var before, after := s[..lo], s[hi..];
    assert AllSpace(before) by {
      forall k | 0 <= k < |before|
        ensures IsSpace(before[k])
      {
        assert before[k] == s[k];
      }
    }
    assert AllSpace(after) by {
      forall k | 0 <= k < |after|
        ensures IsSpace(after[k])
      {
        assert after[k] == s[hi + k];
      }
    }
  }

  /** The result of `strip()` occurs in its input. */
  lemma StripOccurs(s: string)
    ensures Contains(s, Strip(s))
  {
    StripIsMiddle(s);
    assert OccursAt(s, Strip(s), StripStart(s));
  }

  /** A string that neither starts nor ends with whitespace is its own `strip()`. */
  lemma StripOfTrimmed(s: string)
    requires s == [] || (!IsSpace(s[0]) && !IsSpace(s[|s| - 1]))
    ensures Strip(s) == s
  {
    SkipSpaceUnique(s, 0, 0);
    SkipSpaceBackUnique(s, 0, |s|, |s|);
  }

  /** A string that does not contain `p` has a `strip()` that does not contain it either. */
  lemma StripAvoids(s: string, p: string)
    requires !Contains(s, p)
    ensures !Contains(Strip(s), p)
  {
    StripOccurs(s);
    if Contains(Strip(s), p) {
      ContainsTransitive(s, Strip(s), p);
    }
  }

  /** `strip()` removes characters and adds none. */
  lemma StripChars(s: string)
    ensures forall c :: c in Strip(s) ==> c in s
  {
    var lo := StripStart(s);
    forall c | c in Strip(s)
      ensures c in s
    {
      var k :| 0 <= k < |Strip(s)| && Strip(s)[k] == c;
      assert s[lo + k] == c;
    }
  }

  /** Whitespace around `b` does not change `b.strip()`. */
  lemma StripIgnoresSurroundingSpace(a: string, b: string, c: string)
    requires AllSpace(a) && AllSpace(c)
    ensures Strip(a + b + c) == Strip(b)
  {
    var lo, hi := StripStart(b), StripEnd(b);
    if lo == |b| {
      assert AllSpace(b);
      AllSpaceConcat(a, b, c);
      StripOfAllSpace(a + b + c);
    } else {
      StripStartAround(a, b, c);
      StripEndAround(a, b, c);
      assert Strip(a + b + c) == (a + b + c)[|a| + lo..|a| + hi];
      MiddleOfConcat(a, b, c, lo, hi);
    }
  }

  lemma AllSpaceConcat(a: string, b: string, c: string)
    requires AllSpace(a) && AllSpace(b) && AllSpace(c)
    ensures AllSpace(a + b + c)
  {
    var s := a + b + c;
    forall k | 0 <= k < |s|
      ensures IsSpace(s[k])
    {
      if k < |a| {
        assert s[k] == a[k];
      } else if k < |a| + |b| {
        assert s[k] == b[k - |a|];
      } else {
        assert s[k] == c[k - |a| - |b|];
      }
    }
  }

  lemma MiddleOfConcat(a: string, b: string, c: string, lo: nat, hi: nat)
    requires lo <= hi <= |b|
    ensures (a + b + c)[|a| + lo..|a| + hi] == b[lo..hi]
  {
  }

  /** Only whitespace strips to the empty string. */
  lemma StripOfAllSpace(s: string)
    requires AllSpace(s)
    ensures Strip(s) == []
  {
    SkipSpaceUnique(s, 0, |s|);
  }

  /** Leading whitespace before `b` moves the start of `strip()` by its length. */
  lemma StripStartAround(a: string, b: string, c: string)
    requires AllSpace(a) && StripStart(b) < |b|
    ensures StripStart(a + b + c) == |a| + StripStart(b)
  {
    var s := a + b + c;
    var lo := StripStart(b);
    forall k | 0 <= k < |a| + lo
      ensures IsSpace(s[k])
    {
      if k < |a| {
        assert s[k] == a[k];
      } else {
        assert s[k] == b[k - |a|];
      }
    }
    assert s[|a| + lo] == b[lo];
    SkipSpaceUnique(s, 0, |a| + lo);
  }

  /** Trailing whitespace after `b` leaves the end of `strip()` at the end of `b`'s. */
  lemma StripEndAround(a: string, b: string, c: string)
    requires AllSpace(a) && AllSpace(c) && StripStart(b) < |b|
    ensures StripEnd(a + b + c) == |a| + StripEnd(b)
  {
    var s := a + b + c;
    StripStartAround(a, b, c);
    var lo, hi := StripStart(b), StripEnd(b);
    assert hi > lo;
    forall k | |a| + hi <= k < |s|
      ensures IsSpace(s[k])
    {
      if k < |a| + |b| {
        assert s[k] == b[k - |a|];
      } else {
        assert s[k] == c[k - |a| - |b|];
      }
    }
    assert s[|a| + hi - 1] == b[hi - 1];
    SkipSpaceBackUnique(s, |a| + lo, |a| + hi, |s|);
  }

  // ---------------------------------------------------------------------------
  // `s.lower()` and `str(n)`

  /** Lower-casing of one character, for the ASCII letters. */
  function LowerChar(c: char): char {
    if 'A' <= c <= 'Z' then (c as int + 32) as char else c
  }

  /** Python's `s.lower()` on ASCII letters; every other character is kept. */
  function Lower(s: string): (r: string)
    ensures |r| == |s|
    ensures forall i :: 0 <= i < |s| ==> r[i] == LowerChar(s[i])
  {
    seq(|s|, i requires 0 <= i < |s| => LowerChar(s[i]))
  }

  lemma LowerConcat(a: string, b: string)
    ensures Lower(a + b) == Lower(a) + Lower(b)
  {
  }

  /** Lower-casing twice is lower-casing once. */
  lemma LowerIdempotent(s: string)
    ensures Lower(Lower(s)) == Lower(s)
  {
  }

  /** An occurrence survives lower-casing both sides: case-insensitive search finds whatever
      case-sensitive search finds. */
  lemma ContainsLower(s: string, p: string)
    requires Contains(s, p)
    ensures Contains(Lower(s), Lower(p))
  {
    var i :| 0 <= i <= |s| - |p| && OccursAt(s, p, i);
    assert Lower(s)[i..i + |p|] == Lower(p) by {
      forall k | 0 <= k < |p|
        ensures Lower(s)[i..i + |p|][k] == Lower(p)[k]
      {
        assert s[i + k] == s[i..i + |p|][k];
      }
    }
    assert OccursAt(Lower(s), Lower(p), i);
  }

  // ---------------------------------------------------------------------------
  // `re.split('[...]', s)`: splitting at any character of a set

  /** Python's `re.split(r'[...]', s)` for a character class: the pieces between the separator
      characters, empty pieces included. */
  function SplitOnChars(s: string, seps: set<char>): (parts: seq<string>)
    ensures |parts| >= 1
    ensures forall k, c :: 0 <= k < |parts| && c in parts[k] ==> c !in seps
    ensures |parts[0]| <= |s| && parts[0] == s[..|parts[0]|]
    ensures (forall i :: 0 <= i < |s| ==> s[i] !in seps) ==> parts == [s]
    decreases |s|
  {
    if s == [] then [""]
    else
      var rest := SplitOnChars(s[1..], seps);
      if s[0] in seps then [""] + rest
      else
        assert s == [s[0]] + s[1..];
        [[s[0]] + rest[0]] + rest[1..]
  }

  /** Every piece of a character-class split occurs in the split string. */
  lemma {:induction false} SplitOnCharsPieceOccurs(s: string, seps: set<char>, k: nat)
    requires k < |SplitOnChars(s, seps)|
    ensures Contains(s, SplitOnChars(s, seps)[k])
    decreases |s|
  {
    var parts := SplitOnChars(s, seps);
    var piece := parts[k];
    if k == 0 {
      assert s[0..|piece|] == piece;
      assert OccursAt(s, piece, 0);
    } else {
      var rest := SplitOnChars(s[1..], seps);
      assert s[0] in seps ==> piece == rest[k - 1];
      assert s[0] !in seps ==> piece == rest[k];
      if s[0] in seps {
        SplitOnCharsPieceOccurs(s[1..], seps, k - 1);
      } else {
        SplitOnCharsPieceOccurs(s[1..], seps, k);
      }
      assert s[1..|s|] == s[1..];
      ContainsOfSlice(s, piece, 1, |s|);
    }
  }

  /** The decimal digit for `d`. */
  function DigitChar(d: nat): char
    requires d < 10
  {
    "0123456789"[d]
  }

  /** Python's `str(n)` for a non-negative integer. */
  function NatToString(n: nat): (r: string)
    ensures |r| >= 1
    ensures forall i :: 0 <= i < |r| ==> '0' <= r[i] <= '9'
  {
    if n < 10 then [DigitChar(n)] else NatToString(n / 10) + [DigitChar(n % 10)]
  }

  /** Python's `str(n)` for an integer. */
  function IntToString(n: int): string {
    if n < 0 then "-" + NatToString(-n) else NatToString(n)
  }
}
