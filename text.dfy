/**
 * The Python string operations the augmentation tool relies on, over
 * `string` (= `seq<char>`): `str.isspace`, `str.strip()`, `str.split(sep)`,
 * `str.endswith`, `str.replace`, the line splitting of `readlines()` on a file
 * opened in text mode, and the concatenation done by `writelines`.
 */
module Text {

  // ---------------------------------------------------------------------------
  // Whitespace and strip()

  /** Python's `str.isspace` for a single character. */
  predicate IsSpace(c: char) {
    ('\t' <= c <= '\r') || ('\U{1C}' <= c <= ' ') || c == '\U{85}' || c == '\U{A0}'
    || c == '\U{1680}' || ('\U{2000}' <= c <= '\U{200A}') || c == '\U{2028}'
    || c == '\U{2029}' || c == '\U{202F}' || c == '\U{205F}' || c == '\U{3000}'
  }

  /** No character of `s` is whitespace. */
  predicate NoSpace(s: string) {
    forall i :: 0 <= i < |s| ==> !IsSpace(s[i])
  }

  /** Neither end of `s` is whitespace. */
  predicate Trimmed(s: string) {
    s == [] || (!IsSpace(s[0]) && !IsSpace(s[|s| - 1]))
  }

  /** `str.lstrip()`: drops the leading whitespace and keeps the rest. */
  function TrimStart(s: string): (r: string)
    ensures |r| <= |s| && r == s[|s| - |r|..]
    ensures forall k :: 0 <= k < |s| - |r| ==> IsSpace(s[k])
    ensures r == [] || !IsSpace(r[0])
  {
    if |s| > 0 && IsSpace(s[0]) then TrimStart(s[1..]) else s
  }

  /** `str.rstrip()`: drops the trailing whitespace and keeps the rest. */
  function TrimEnd(s: string): (r: string)
    ensures |r| <= |s| && r == s[..|r|]
    ensures forall k :: |r| <= k < |s| ==> IsSpace(s[k])
    ensures r == [] || !IsSpace(r[|r| - 1])
  {
    if |s| > 0 && IsSpace(s[|s| - 1]) then TrimEnd(s[..|s| - 1]) else s
  }

  /** `str.strip()` with no argument. */
  function Strip(s: string): (r: string)
    ensures |r| <= |s| && Trimmed(r)
    ensures Trimmed(s) ==> r == s
  {
    TrimEnd(TrimStart(s))
  }

  /** What `strip()` removes is whitespace at the two ends, and only that. */
  lemma StripIsSlice(s: string)
    ensures var i, r := |s| - |TrimStart(s)|, Strip(s);
      && i + |r| <= |s| && r == s[i..][..|r|]
      && (forall k :: 0 <= k < i ==> IsSpace(s[k]))
      && (forall k :: i + |r| <= k < |s| ==> IsSpace(s[k]))
  {
    var t := TrimStart(s);
    var r := TrimEnd(t);
    assert Strip(s) == r;
    SpacesOfSuffix(s, |s| - |t|, |r|);
  }

  lemma SpacesOfSuffix(s: string, i: nat, n: nat)
    requires i + n <= |s|
    requires forall k :: n <= k < |s[i..]| ==> IsSpace(s[i..][k])
    ensures forall k :: i + n <= k < |s| ==> IsSpace(s[k])
  {
    forall k | i + n <= k < |s| ensures IsSpace(s[k]) {
      assert s[k] == s[i..][k - i];
    }
  }

  // ---------------------------------------------------------------------------
  // split(sep) and its inverse

  /** Number of occurrences of `c` in `s`. */
  function Count(s: string, c: char): nat {
    if s == [] then 0 else (if s[0] == c then 1 else 0) + Count(s[1..], c)
  }

  /**
   * `s.split(sep)` with an explicit one-character separator: every occurrence
   * of `sep` ends a piece, so `""` gives `[""]` and two adjacent separators
   * give an empty piece between them.
   */
  function Split(s: string, sep: char): (r: seq<string>)
    ensures |r| == Count(s, sep) + 1
    ensures forall k :: 0 <= k < |r| ==> sep !in r[k]
  {
    if s == [] then [""]
    else
      var rest := Split(s[1..], sep);
      if s[0] == sep then [""] + rest
      else [[s[0]] + rest[0]] + rest[1..]
  }

  /** `sep.join(pieces)`. */
  function Join(pieces: seq<string>, sep: char): string {
    if |pieces| == 0 then ""
    else if |pieces| == 1 then pieces[0]
    else pieces[0] + [sep] + Join(pieces[1..], sep)
  }

  /** Joining the pieces of a split gives back the string. */
  lemma {:induction false} JoinSplit(s: string, sep: char)
    ensures Join(Split(s, sep), sep) == s
  {
    if s != [] {
      JoinSplit(s[1..], sep);
      if s[0] == sep {
        JoinSplitAtSep(s, sep);
      } else {
        JoinSplitAtChar(s, sep);
      }
    }
  }

  lemma JoinSplitAtSep(s: string, sep: char)
    requires s != [] && s[0] == sep
    requires Join(Split(s[1..], sep), sep) == s[1..]
    ensures Join(Split(s, sep), sep) == s
  {
    var rest := Split(s[1..], sep);
    assert Split(s, sep) == [""] + rest;
    assert ([""] + rest)[1..] == rest;
    assert [sep] + s[1..] == s;
  }

  lemma JoinSplitAtChar(s: string, sep: char)
    requires s != [] && s[0] != sep
    requires Join(Split(s[1..], sep), sep) == s[1..]
    ensures Join(Split(s, sep), sep) == s
  {
    var rest := Split(s[1..], sep);
    assert Split(s, sep) == [[s[0]] + rest[0]] + rest[1..];
    JoinCons(s[0], rest, sep);
    assert [s[0]] + s[1..] == s;
  }

  /** A character put in front of the first piece comes first in the join. */
  lemma JoinCons(c: char, pieces: seq<string>, sep: char)
    requires |pieces| >= 1
    ensures Join([[c] + pieces[0]] + pieces[1..], sep) == [c] + Join(pieces, sep)
  {
    var r := [[c] + pieces[0]] + pieces[1..];
    assert r[0] == [c] + pieces[0] && r[1..] == pieces[1..];
    if |pieces| > 1 {
      assert [c] + pieces[0] + [sep] + Join(pieces[1..], sep) == [c] + (pieces[0] + [sep] + Join(pieces[1..], sep));
    }
  }



  /** A string without the separator is a single piece. */
  lemma {:induction false} SplitNoSep(a: string, sep: char)
    requires sep !in a
    ensures Split(a, sep) == [a]
  {
    if a != [] {
      SplitNoSep(a[1..], sep);
      assert [a[0]] + a[1..] == a;
    }
  }

  /** A separator after a piece without separators closes that piece. */
  lemma {:induction false} SplitAfterPiece(a: string, sep: char, b: string)
    requires sep !in a
    ensures Split(a + [sep] + b, sep) == [a] + Split(b, sep)
  {
    if a == [] {
      assert a + [sep] + b == [sep] + b;
      assert ([sep] + b)[1..] == b;
    } else {
      var s := a + [sep] + b;
      assert s[1..] == a[1..] + [sep] + b;
      SplitAfterPiece(a[1..], sep, b);
      assert [a[0]] + a[1..] == a;
    }
  }

  /** Splitting a join of separator-free pieces gives back the pieces. */
  lemma {:induction false} SplitJoin(pieces: seq<string>, sep: char)
    requires |pieces| > 0
    requires forall k :: 0 <= k < |pieces| ==> sep !in pieces[k]
    ensures Split(Join(pieces, sep), sep) == pieces
  {
    if |pieces| == 1 {
      SplitNoSep(pieces[0], sep);
    } else {
      SplitJoin(pieces[1..], sep);
      SplitAfterPiece(pieces[0], sep, Join(pieces[1..], sep));
      assert [pieces[0]] + pieces[1..] == pieces;
    }
  }

  /** A character in none of the pieces, other than the separator, is not in their join. */
  lemma {:induction false} JoinAvoids(pieces: seq<string>, sep: char, c: char)
    requires c != sep
    requires forall k :: 0 <= k < |pieces| ==> c !in pieces[k]
    ensures c !in Join(pieces, sep)
  {
    if |pieces| > 1 {
      JoinAvoids(pieces[1..], sep, c);
    }
  }

  /** A join of nonempty pieces starts with the first piece's first character and ends with the last one's last. */
  lemma {:induction false} JoinEnds(pieces: seq<string>, sep: char)
    requires |pieces| > 0 && forall k :: 0 <= k < |pieces| ==> |pieces[k]| > 0
    ensures var j := Join(pieces, sep);
      && |j| > 0 && j[0] == pieces[0][0]
      && j[|j| - 1] == pieces[|pieces| - 1][|pieces[|pieces| - 1]| - 1]
  {
    if |pieces| > 1 {
      var rest := pieces[1..];
      assert rest[|rest| - 1] == pieces[|pieces| - 1];
      JoinEnds(rest, sep);
    }
  }

  /** `sep.join` of five pieces, written out. */
  lemma JoinFive(a: string, b: string, c: string, d: string, e: string, sep: char)
    ensures Join([a, b, c, d, e], sep) == a + [sep] + b + [sep] + c + [sep] + d + [sep] + e
  {
    var p := [a, b, c, d, e];
    assert p[1..] == [b, c, d, e];
    assert p[1..][1..] == [c, d, e];
    assert p[1..][1..][1..] == [d, e];
    assert p[1..][1..][1..][1..] == [e];
    assert Join([d, e], sep) == d + [sep] + e;
    assert Join([c, d, e], sep) == c + [sep] + (d + [sep] + e);
    assert Join([b, c, d, e], sep) == b + [sep] + (c + [sep] + (d + [sep] + e));
  }

  // ---------------------------------------------------------------------------
  // endswith and replace

  /** `s.endswith(suffix)`. */
  predicate EndsWith(s: string, suffix: string) {
    |suffix| <= |s| && s[|s| - |suffix|..] == suffix
  }

  /** `pat` occurs in `s` starting at index `k`. */
  predicate OccursAt(s: string, pat: string, k: int) {
    0 <= k && k + |pat| <= |s| && s[k..k + |pat|] == pat
  }

  /** `s.replace("", rep)`: `rep` before every character and at the end. */
  function ReplaceEmpty(s: string, rep: string): (r: string)
    ensures |r| == |s| + (|s| + 1) * |rep|
  {
    if s == [] then rep else rep + [s[0]] + ReplaceEmpty(s[1..], rep)
  }

  /**
   * `s.replace(pat, rep)`: every occurrence of `pat`, scanning from the left
   * and without overlaps, is replaced by `rep`.
   */
  function Replace(s: string, pat: string, rep: string): string
    decreases |s|
  {
    if pat == [] then ReplaceEmpty(s, rep)
    else if |s| < |pat| then s
    else if s[..|pat|] == pat then rep + Replace(s[|pat|..], pat, rep)
    else [s[0]] + Replace(s[1..], pat, rep)
  }

  /** A string in which `pat` does not occur is left as it is. */
  lemma {:induction false} ReplaceAbsent(s: string, pat: string, rep: string)
    requires pat != []
    requires forall k :: !OccursAt(s, pat, k)
    ensures Replace(s, pat, rep) == s
    decreases |s|
  {
    if |s| >= |pat| {
      assert !OccursAt(s, pat, 0);
      forall k ensures !OccursAt(s[1..], pat, k) {
        if OccursAt(s[1..], pat, k) {
          assert s[1..][k..k + |pat|] == s[k + 1..k + 1 + |pat|];
          assert OccursAt(s, pat, k + 1);
        }
      }
      ReplaceAbsent(s[1..], pat, rep);
      assert [s[0]] + s[1..] == s;
    }
  }

  /**
   * When the first character of `pat` appears nowhere else in it, occurrences
   * of `pat` cannot overlap, so an appended `pat` is always the last occurrence
   * found and is replaced.
   */
  lemma {:induction false} ReplaceAppended(s: string, pat: string, rep: string)
    requires pat != []
    requires forall k :: 0 < k < |pat| ==> pat[k] != pat[0]
    ensures Replace(s + pat, pat, rep) == Replace(s, pat, rep) + rep
    decreases |s|
  {
    var t := s + pat;
    if s == [] {
      assert t == pat;
      assert t[|pat|..] == [];
      assert Replace(t, pat, rep) == rep + Replace([], pat, rep);
    } else if |s| < |pat| {
      NoStraddle(s, pat);
      ReplaceAppended(s[1..], pat, rep);
      ReplaceAppendedShort(s, pat, rep);
    } else if s[..|pat|] == pat {
      ReplaceAppended(s[|pat|..], pat, rep);
      ReplaceAppendedMatch(s, pat, rep);
    } else {
      ReplaceAppended(s[1..], pat, rep);
      ReplaceAppendedSkip(s, pat, rep);
    }
  }

  lemma ReplaceAppendedShort(s: string, pat: string, rep: string)
    requires pat != [] && 0 < |s| < |pat|
    requires (s + pat)[..|pat|] != pat
    requires Replace(s[1..] + pat, pat, rep) == Replace(s[1..], pat, rep) + rep
    ensures Replace(s + pat, pat, rep) == Replace(s, pat, rep) + rep
  {
    var t := s + pat;
    assert t[1..] == s[1..] + pat;
    assert Replace(t, pat, rep) == [s[0]] + Replace(s[1..] + pat, pat, rep);
    ReplaceAbsentShort(s, pat, rep);
    ReplaceAbsentShort(s[1..], pat, rep);
    assert [s[0]] + s[1..] == s;
  }

  lemma ReplaceAppendedMatch(s: string, pat: string, rep: string)
    requires pat != [] && |pat| <= |s| && s[..|pat|] == pat
    requires Replace(s[|pat|..] + pat, pat, rep) == Replace(s[|pat|..], pat, rep) + rep
    ensures Replace(s + pat, pat, rep) == Replace(s, pat, rep) + rep
  {
    var t := s + pat;
    AppendSlices(s, pat, |pat|);
    calc {
      Replace(t, pat, rep);
      rep + Replace(t[|pat|..], pat, rep);
      rep + (Replace(s[|pat|..], pat, rep) + rep);
      (rep + Replace(s[|pat|..], pat, rep)) + rep;
      Replace(s, pat, rep) + rep;
    }
  }

  lemma ReplaceAppendedSkip(s: string, pat: string, rep: string)
    requires pat != [] && |pat| <= |s| && s[..|pat|] != pat
    requires Replace(s[1..] + pat, pat, rep) == Replace(s[1..], pat, rep) + rep
    ensures Replace(s + pat, pat, rep) == Replace(s, pat, rep) + rep
  {
    var t := s + pat;
    AppendSlices(s, pat, |pat|);
    AppendSlices(s, pat, 1);
    calc {
      Replace(t, pat, rep);
      [t[0]] + Replace(t[1..], pat, rep);
      [s[0]] + (Replace(s[1..], pat, rep) + rep);
      ([s[0]] + Replace(s[1..], pat, rep)) + rep;
      Replace(s, pat, rep) + rep;
    }
  }

  /** Slicing `s + b` at an index inside `s`. */
  lemma AppendSlices(s: string, b: string, n: nat)
    requires n <= |s|
    ensures (s + b)[..n] == s[..n]
    ensures (s + b)[n..] == s[n..] + b
  {
    var t := s + b;
    assert |t[n..]| == |s[n..] + b|;
    forall i | 0 <= i < |t[n..]| ensures t[n..][i] == (s[n..] + b)[i] {
      if i < |s| - n { assert t[n + i] == s[n + i]; }
    }
  }

  /** A border-free pattern cannot start inside a shorter prefix and run into its own copy. */
  lemma NoStraddle(s: string, pat: string)
    requires 0 < |s| < |pat|
    requires forall k :: 0 < k < |pat| ==> pat[k] != pat[0]
    ensures (s + pat)[..|pat|] != pat
  {
    var t := s + pat;
    assert t[..|pat|][|s|] == t[|s|] == pat[0] != pat[|s|];
  }

  /** A string shorter than a nonempty pattern is left as it is. */
  lemma ReplaceAbsentShort(s: string, pat: string, rep: string)
    requires pat != [] && |s| < |pat|
    ensures Replace(s, pat, rep) == s
  {
  }

  /**
   * The first occurrence of a border-free `pat` is replaced and scanning goes
   * on after it: `(a + pat + b).replace(pat, rep)` is `a + rep` followed by
   * `b.replace(pat, rep)` when `pat` does not occur in `a`.
   */
  lemma {:induction false} ReplaceFirst(a: string, pat: string, rep: string, b: string)
    requires pat != []
    requires forall k :: 0 < k < |pat| ==> pat[k] != pat[0]
    requires forall k :: !OccursAt(a, pat, k)
    ensures Replace(a + pat + b, pat, rep) == a + rep + Replace(b, pat, rep)
    decreases |a|
  {
    if a == [] {
      assert a + pat + b == pat + b;
      ReplaceAtStart(pat, rep, b);
      assert a + rep == rep;
    } else {
      FirstNotAtStart(a, pat, b);
      NoOccurrenceInTail(a, pat);
      ReplaceFirst(a[1..], pat, rep, b);
      var s := a + pat + b;
      ReplaceSkip(s, pat, rep);
      SplitFirst(a, pat, b);
      ConsStep(a, rep, Replace(b, pat, rep), Replace(s, pat, rep), Replace(s[1..], pat, rep));
    }
  }

  lemma ReplaceAtStart(pat: string, rep: string, b: string)
    requires pat != []
    ensures Replace(pat + b, pat, rep) == rep + Replace(b, pat, rep)
  {
    var s := pat + b;
    assert s[..|pat|] == pat && s[|pat|..] == b;
  }

  lemma SplitFirst(a: string, pat: string, b: string)
    requires a != []
    ensures (a + pat + b)[0] == a[0] && (a + pat + b)[1..] == a[1..] + pat + b
  {
  }

  /** Putting back the first character of `a` in front of `a[1..] + u + v`. */
  lemma ConsStep(a: string, u: string, v: string, x: string, y: string)
    requires a != [] && x == [a[0]] + y && y == a[1..] + u + v
    ensures x == a + u + v
  {
    assert [a[0]] + a[1..] == a;
  }

  /** Where `pat` does not start `s`, the first character is kept and the scan moves on. */
  lemma ReplaceSkip(s: string, pat: string, rep: string)
    requires pat != [] && |pat| <= |s| && s[..|pat|] != pat
    ensures Replace(s, pat, rep) == [s[0]] + Replace(s[1..], pat, rep)
  {
  }

  /** A pattern absent from `a` is absent from its tail. */
  lemma NoOccurrenceInTail(a: string, pat: string)
    requires a != [] && forall k :: !OccursAt(a, pat, k)
    ensures forall k :: !OccursAt(a[1..], pat, k)
  {
    forall k ensures !OccursAt(a[1..], pat, k) {
      if OccursAt(a[1..], pat, k) {
        assert a[1..][k..k + |pat|] == a[k + 1..k + 1 + |pat|];
        assert OccursAt(a, pat, k + 1);
      }
    }
  }

  /** Under the conditions of `ReplaceFirst`, `a + pat + b` does not start with `pat` unless `a` is empty. */
  lemma FirstNotAtStart(a: string, pat: string, b: string)
    requires pat != [] && a != []
    requires forall k :: 0 < k < |pat| ==> pat[k] != pat[0]
    requires forall k :: !OccursAt(a, pat, k)
    ensures |pat| <= |a + pat + b| && (a + pat + b)[..|pat|] != pat
  {
    var s := a + pat + b;
    if |a| < |pat| {
      NoStraddle(a, pat);
      assert s[..|pat|] == (a + pat)[..|pat|];
    } else {
      assert !OccursAt(a, pat, 0);
      assert s[..|pat|] == a[..|pat|];
    }
  }

  /**
   * When `pat` occurs in `stem + pat` only at the end, the replacement changes
   * that suffix alone.
   */
  lemma ReplaceOnlySuffix(stem: string, pat: string, rep: string)
    requires pat != []
    requires forall k :: 0 < k < |pat| ==> pat[k] != pat[0]
    requires forall k :: !OccursAt(stem, pat, k)
    ensures Replace(stem + pat, pat, rep) == stem + rep
  {
    ReplaceAppended(stem, pat, rep);
    ReplaceAbsent(stem, pat, rep);
  }

  // ---------------------------------------------------------------------------
  // Lines of a text file

  /** Concatenation of strings, as `file.writelines(lines)` writes them. */
  function Concat(lines: seq<string>): string {
    if lines == [] then "" else lines[0] + Concat(lines[1..])
  }

  /** A line of `readlines()`: nonempty, with a newline at most as its last character. */
  predicate IsLine(l: string) {
    |l| > 0 && '\n' !in l[..|l| - 1]
  }

  /** A line that ends with its newline. */
  predicate IsTerminatedLine(l: string) {
    IsLine(l) && l[|l| - 1] == '\n'
  }

  /** Length of the first line of `s`, its newline included. */
  function LineEnd(s: string): (n: nat)
    requires |s| > 0
    ensures 0 < n <= |s|
    ensures '\n' !in s[..n - 1]
    ensures n == |s| || s[n - 1] == '\n'
  {
    if s[0] == '\n' || |s| == 1 then 1
    else
      var m := LineEnd(s[1..]);
      assert s[..m] == [s[0]] + s[1..][..m - 1];
      1 + m
  }

  /**
   * `readlines()` on the decoded text: each line keeps its `'\n'`, the last
   * one may lack it, and an empty text has no lines.
   */
  function Lines(s: string): (r: seq<string>)
    ensures Concat(r) == s
    ensures forall i :: 0 <= i < |r| ==> IsLine(r[i])
    ensures forall i :: 0 <= i < |r| - 1 ==> IsTerminatedLine(r[i])
    decreases |s|
  {
    if s == [] then []
    else
      var n := LineEnd(s);
      var rest := Lines(s[n..]);
      assert s == s[..n] + s[n..];
      [s[..n]] + rest
  }

  /** Reading back what `writelines` wrote gives the lines that were written. */
  lemma {:induction false} LinesOfConcat(lines: seq<string>)
    requires forall i :: 0 <= i < |lines| ==> IsTerminatedLine(lines[i])
    ensures Lines(Concat(lines)) == lines
  {
    if lines != [] {
      var l := lines[0];
      var s := Concat(lines);
      assert s == l + Concat(lines[1..]);
      LineEndOfTerminated(l, Concat(lines[1..]));
      assert s[..|l|] == l;
      assert s[|l|..] == Concat(lines[1..]);
      LinesOfConcat(lines[1..]);
      assert [l] + lines[1..] == lines;
    }
  }

  /** The first line of `l + rest` is `l` when `l` is a terminated line. */
  lemma LineEndOfTerminated(l: string, rest: string)
    requires IsTerminatedLine(l)
    ensures LineEnd(l + rest) == |l|
  {
    var s := l + rest;
    var n := LineEnd(s);
    assert s[..|l| - 1] == l[..|l| - 1];
    assert s[|l| - 1] == '\n';
  }

  /** Number of lines `readlines()` finds in a text: its newlines, plus an unterminated tail. */
  function LineCount(s: string): nat {
    Count(s, '\n') + (if s != [] && s[|s| - 1] != '\n' then 1 else 0)
  }

  /** `readlines()` yields exactly `LineCount` lines. */
  lemma {:induction false} LinesCount(s: string)
    ensures |Lines(s)| == LineCount(s)
    decreases |s|
  {
    if s != [] {
      var n := LineEnd(s);
      var head, tail := s[..n], s[n..];
      assert s == head + tail;
      LinesCount(tail);
      CountSplit(head, tail, '\n');
      CountLine(head);
      assert |Lines(s)| == 1 + |Lines(tail)|;
      if tail != [] {
        assert s[|s| - 1] == tail[|tail| - 1];
      }
    }
  }

  /** A line holds one newline if it is terminated and none otherwise. */
  lemma CountLine(l: string)
    requires IsLine(l)
    ensures Count(l, '\n') == if l[|l| - 1] == '\n' then 1 else 0
  {
    var front := l[..|l| - 1];
    assert l == front + [l[|l| - 1]];
    CountSplit(front, [l[|l| - 1]], '\n');
    CountNoChar(front, '\n');
  }

  lemma {:induction false} CountSplit(a: string, b: string, c: char)
    ensures Count(a + b, c) == Count(a, c) + Count(b, c)
  {
    if a != [] {
      assert (a + b)[1..] == a[1..] + b;
      CountSplit(a[1..], b, c);
    } else {
      assert a + b == b;
    }
  }

  lemma {:induction false} CountNoChar(a: string, c: char)
    requires c !in a
    ensures Count(a, c) == 0
  {
    if a != [] {
      CountNoChar(a[1..], c);
    }
  }

  /**
   * Universal newlines of a file opened in text mode: `"\r\n"` and a lone
   * `'\r'` both read as `'\n'`.
   */
  function TranslateNewlines(s: string): (r: string)
    ensures '\r' !in s ==> r == s
    ensures '\r' !in r
    decreases |s|
  {
    if s == [] then []
    else if s[0] == '\r' then
      (if |s| > 1 && s[1] == '\n' then "\n" + TranslateNewlines(s[2..]) else "\n" + TranslateNewlines(s[1..]))
    else
      assert s == [s[0]] + s[1..];
      [s[0]] + TranslateNewlines(s[1..])
  }

  /**
   * The first line break of a text: `"\r\n"` becomes one `'\n'`, and so does a
   * `'\r'` that no `'\n'` follows; the text before it is kept.
   */
  lemma TranslateBreak(a: string, b: string)
    requires '\r' !in a
    ensures TranslateNewlines(a + "\r\n" + b) == a + "\n" + TranslateNewlines(b)
    ensures (b == [] || b[0] != '\n') ==> TranslateNewlines(a + "\r" + b) == a + "\n" + TranslateNewlines(b)
  {
    BreakTranslates(b);
    TranslateBreakAt(a, "\r\n", b);
    if b == [] || b[0] != '\n' {
      TranslateBreakAt(a, "\r", b);
    }
  }

  lemma TranslateBreakAt(a: string, brk: string, b: string)
    requires '\r' !in a
    requires TranslateNewlines(brk + b) == "\n" + TranslateNewlines(b)
    ensures TranslateNewlines(a + brk + b) == a + "\n" + TranslateNewlines(b)
  {
    var t := TranslateNewlines(b);
    assert a + "\n" + t == a + ("\n" + t);
    var x := brk + b;
    assert a + brk + b == a + x;
    assert forall k :: 0 <= k < |a| ==> a[k] != '\r';
    TranslateAfter(a, x, b);
  }

  /** Text without `'\r'` is kept in front of whatever a break `x` translates to. */
  lemma {:induction false} TranslateAfter(a: string, x: string, b: string)
    requires forall k :: 0 <= k < |a| ==> a[k] != '\r'
    requires TranslateNewlines(x) == "\n" + TranslateNewlines(b)
    ensures TranslateNewlines(a + x) == a + ("\n" + TranslateNewlines(b))
    decreases |a|
  {
    if a == [] {
      assert a + x == x;
    } else {
      TranslateAfter(a[1..], x, b);
      TranslateStep(a, x);
      ConsAppend(a, "\n" + TranslateNewlines(b));
    }
  }

  lemma ConsAppend(a: string, rest: string)
    requires a != []
    ensures [a[0]] + (a[1..] + rest) == a + rest
  {
    assert [a[0]] + a[1..] == a;
  }

  lemma TranslateStep(a: string, x: string)
    requires a != [] && a[0] != '\r'
    ensures TranslateNewlines(a + x) == [a[0]] + TranslateNewlines(a[1..] + x)
  {
    var s := a + x;
    assert s[0] == a[0] && s[1..] == a[1..] + x;
  }

  /** How a `"\r\n"` and a `'\r'` that no `'\n'` follows translate. */
  lemma BreakTranslates(b: string)
    ensures TranslateNewlines("\r\n" + b) == "\n" + TranslateNewlines(b)
    ensures (b == [] || b[0] != '\n') ==> TranslateNewlines("\r" + b) == "\n" + TranslateNewlines(b)
  {
    var crlf := "\r\n" + b;
    var cr := "\r" + b;
    assert crlf[0] == '\r' && crlf[1] == '\n' && crlf[2..] == b;
    assert cr[0] == '\r' && cr[1..] == b;
  }

  /** A character absent from every string is absent from their concatenation. */
  lemma {:induction false} ConcatNoChar(lines: seq<string>, c: char)
    requires forall i :: 0 <= i < |lines| ==> c !in lines[i]
    ensures c !in Concat(lines)
  {
    if lines != [] {
      ConcatNoChar(lines[1..], c);
    }
  }

  // ---------------------------------------------------------------------------
  // Paths

  /** `os.path.join(a, b)` for two components on a POSIX system. */
  function JoinPath(a: string, b: string): (r: string)
    ensures |b| > 0 && b[0] == '/' ==> r == b
    ensures EndsWith(r, b)
  {
    if |b| > 0 && b[0] == '/' then b
    else if a == [] || a[|a| - 1] == '/' then a + b
    else a + "/" + b
  }
}
