/**
  The parts of Go's `strings` and `path/filepath` packages that the search
  engine relies on, over strings of runes (`seq<char>`).  Every other module
  states its behaviour in these terms, so the lemmas here are the shared
  vocabulary: splitting into maximal runs, joining, trimming and replacing.
 */
module Text {

  /** Go's unicode.IsSpace: the Unicode White_Space property. */
  predicate IsSpace(c: char) {
    var n := c as int;
    (9 <= n <= 13) || n == 32 || n == 0x85 || n == 0xA0 || n == 0x1680
    || (0x2000 <= n <= 0x200A) || n == 0x2028 || n == 0x2029 || n == 0x202F
    || n == 0x205F || n == 0x3000
  }

  predicate IsNonSpace(c: char) {
    !IsSpace(c)
  }

  predicate IsAsciiAlnum(c: char) {
    ('a' <= c <= 'z') || ('A' <= c <= 'Z') || ('0' <= c <= '9')
  }

  /** Length of the longest prefix of `s` whose runes all satisfy `keep`. */
  function RunLength(s: string, keep: char -> bool): (n: nat)
    ensures n <= |s|
    ensures forall i | 0 <= i < n :: keep(s[i])
    ensures n < |s| ==> !keep(s[n])
  {
    if s == [] || !keep(s[0]) then 0 else 1 + RunLength(s[1..], keep)
  }

  /** The maximal runs of runes satisfying `keep`, in order; every other rune separates. */
  function SplitRuns(s: string, keep: char -> bool): seq<string>
    decreases |s|
  {
    if s == [] then []
    else if !keep(s[0]) then SplitRuns(s[1..], keep)
    else
      var n := RunLength(s, keep);
      [s[..n]] + SplitRuns(s[n..], keep)
  }

  /** strings.Fields: the maximal runs of non-space runes. */
  function Fields(s: string): seq<string> {
    SplitRuns(s, IsNonSpace)
  }

  /** strings.Join */
  function Join(parts: seq<string>, sep: string): string
    decreases |parts|
  {
    if parts == [] then ""
    else if |parts| == 1 then parts[0]
    else parts[0] + sep + Join(parts[1..], sep)
  }

  /** strings.TrimSpace */
  function TrimSpace(s: string): (r: string)
    ensures |r| <= |s|
  {
    TrimRight(TrimLeft(s))
  }

  function TrimLeft(s: string): (r: string)
    ensures |r| <= |s|
    ensures r == s[|s| - |r|..]
    ensures r != [] ==> !IsSpace(r[0])
    ensures forall i | 0 <= i < |s| - |r| :: IsSpace(s[i])
  {
    if s != [] && IsSpace(s[0]) then TrimLeft(s[1..]) else s
  }

  function TrimRight(s: string): (r: string)
    ensures |r| <= |s|
    ensures r == s[..|r|]
    ensures r != [] ==> !IsSpace(r[|r| - 1])
    ensures forall i | |r| <= i < |s| :: IsSpace(s[i])
  {
    if s != [] && IsSpace(s[|s| - 1]) then TrimRight(s[..|s| - 1]) else s
  }

  predicate HasPrefix(s: string, prefix: string) {
    |prefix| <= |s| && s[..|prefix|] == prefix
  }

  predicate HasSuffix(s: string, suffix: string) {
    |suffix| <= |s| && s[|s| - |suffix|..] == suffix
  }

  /** strings.Contains(s, sub): `sub` occurs in `s` at some position. */
  predicate Contains(s: string, sub: string) {
    exists i | 0 <= i <= |s| - |sub| :: OccursAt(s, sub, i)
  }

  predicate OccursAt(s: string, sub: string, i: int) {
    0 <= i <= |s| - |sub| && s[i..i + |sub|] == sub
  }

  /** strings.ReplaceAll for a non-empty pattern: leftmost, non-overlapping occurrences. */
  function ReplaceAll(s: string, pattern: string, replacement: string): (r: string)
    requires pattern != []
    ensures |replacement| <= |pattern| ==> |r| <= |s|
    decreases |s|
  {
    if |s| < |pattern| then s
    else if s[..|pattern|] == pattern then replacement + ReplaceAll(s[|pattern|..], pattern, replacement)
    else [s[0]] + ReplaceAll(s[1..], pattern, replacement)
  }

  /** strings.TrimSuffix */
  function TrimSuffix(s: string, suffix: string): string {
    if HasSuffix(s, suffix) then s[..|s| - |suffix|] else s
  }

  /** strings.Split(s, string(sep)) for a one-rune separator: n separators give n + 1 parts. */
  function Split(s: string, sep: char): (parts: seq<string>)
    ensures |parts| >= 1
    decreases |s|
  {
    if sep !in s then [s]
    else
      var k := FirstIndex(s, sep);
      [s[..k]] + Split(s[k + 1..], sep)
  }

  /** Position of the first occurrence of `c` in `s`. */
  function FirstIndex(s: string, c: char): (k: nat)
    requires c in s
    ensures k < |s| && s[k] == c && c !in s[..k]
  {
    if s[0] == c then 0 else 1 + FirstIndex(s[1..], c)
  }

  /** Case folding of the ASCII letters (non-ASCII runes are left as they are). */
  function LowerChar(c: char): char {
    if 'A' <= c <= 'Z' then (c as int + 32) as char else c
  }

  function UpperChar(c: char): char {
    if 'a' <= c <= 'z' then (c as int - 32) as char else c
  }

  /** strings.ToLower, on ASCII letters */
  function Lower(s: string): (r: string)
    ensures |r| == |s| && forall i | 0 <= i < |s| :: r[i] == LowerChar(s[i])
  {
    seq(|s|, i requires 0 <= i < |s| => LowerChar(s[i]))
  }

  /** strings.ToUpper, on ASCII letters */
  function Upper(s: string): (r: string)
    ensures |r| == |s| && forall i | 0 <= i < |s| :: r[i] == UpperChar(s[i])
  {
    seq(|s|, i requires 0 <= i < |s| => UpperChar(s[i]))
  }

  predicate IsPathSeparator(c: char) {
    c == '\\' || c == '/'
  }

  /** filepath.Ext on Windows: the suffix from the last '.' of the final element, or "". */
  function Ext(path: string): (e: string)
    ensures e == [] || (HasSuffix(path, e) && e[0] == '.')
    ensures forall i | 1 <= i < |e| :: e[i] != '.' && !IsPathSeparator(e[i])
    decreases |path|
  {
    if path == [] || IsPathSeparator(path[|path| - 1]) then ""
    else if path[|path| - 1] == '.' then "."
    else
      var e := Ext(path[..|path| - 1]);
      if e == [] then [] else e + [path[|path| - 1]]
  }

  /** filepath.Base for the absolute paths the store holds: the text after the last separator. */
  function Base(path: string): (b: string)
    ensures forall i | 0 <= i < |b| :: !IsPathSeparator(b[i])
    ensures HasSuffix(path, b)
    decreases |path|
  {
    if path == [] || IsPathSeparator(path[|path| - 1]) then ""
    else Base(path[..|path| - 1]) + [path[|path| - 1]]
  }

  // ---------------------------------------------------------------------
  // Lemmas about splitting and joining

  /** Every run is non-empty, consists of kept runes, and each of its runes satisfies
      whatever every kept rune of the input satisfies. */
  lemma {:induction false} SplitRunsChars(s: string, keep: char -> bool, p: char -> bool)
    requires forall i | 0 <= i < |s| :: keep(s[i]) ==> p(s[i])
    ensures forall w | w in SplitRuns(s, keep) :: w != [] && forall j | 0 <= j < |w| :: keep(w[j]) && p(w[j])
    decreases |s|
  {
    if s == [] {
    } else if !keep(s[0]) {
      SplitRunsChars(s[1..], keep, p);
    } else {
      var n := RunLength(s, keep);
      SplitRunsChars(s[n..], keep, p);
      assert SplitRuns(s, keep) == [s[..n]] + SplitRuns(s[n..], keep);
    }
  }

  /** No run is lost when the input has no kept rune: the result is empty exactly then. */
  lemma {:induction false} SplitRunsEmpty(s: string, keep: char -> bool)
    ensures SplitRuns(s, keep) == [] <==> forall i | 0 <= i < |s| :: !keep(s[i])
    decreases |s|
  {
    if s != [] {
      SplitRunsEmpty(s[1..], keep);
      if !keep(s[0]) {
        assert forall i | 1 <= i < |s| :: s[i] == s[1..][i - 1];
      }
    }
  }

  /** A string is single-spaced when its only blank is ' ', used singly and never at an end. */
  predicate SingleSpaced(s: string) {
    && (forall i | 0 <= i < |s| :: IsSpace(s[i]) ==> s[i] == ' ')
    && (s != [] ==> s[0] != ' ' && s[|s| - 1] != ' ')
    && (forall i | 0 <= i < |s| - 1 :: !(s[i] == ' ' && s[i + 1] == ' '))
  }

  /** Joining non-empty blank-free words with one space gives a single-spaced string
      whose runes are spaces or runes of the words. */
  lemma {:induction false} JoinSingleSpaced(ws: seq<string>, p: char -> bool)
    requires forall w | w in ws :: w != [] && forall j | 0 <= j < |w| :: !IsSpace(w[j]) && p(w[j])
    ensures SingleSpaced(Join(ws, " "))
    ensures forall i | 0 <= i < |Join(ws, " ")| :: Join(ws, " ")[i] == ' ' || p(Join(ws, " ")[i])
    decreases |ws|
  {
    if |ws| > 1 {
      var w := ws[0];
      assert w in ws;
      assert forall v | v in ws[1..] :: v in ws;
      JoinSingleSpaced(ws[1..], p);
      var rest := Join(ws[1..], " ");
      assert ws[1] in ws;
      assert rest != [];
      var r := w + " " + rest;
      assert Join(ws, " ") == r;
      forall i | 0 <= i < |r|
        ensures r[i] == ' ' || p(r[i])
        ensures IsSpace(r[i]) ==> r[i] == ' '
      {
        if i < |w| {
          assert r[i] == w[i];
        } else if i > |w| {
          assert r[i] == rest[i - |w| - 1];
        }
      }
      forall i | 0 <= i < |r| - 1
        ensures !(r[i] == ' ' && r[i + 1] == ' ')
      {
        if i < |w| - 1 {
          assert r[i] == w[i];
        } else if i == |w| - 1 {
          assert r[i] == w[i];
        } else if i == |w| {
          assert r[i + 1] == rest[0];
        } else {
          assert r[i] == rest[i - |w| - 1] && r[i + 1] == rest[i - |w|];
        }
      }
      assert r[0] == w[0];
      assert r[|r| - 1] == rest[|rest| - 1];
    } else if |ws| == 1 {
      assert ws[0] in ws;
    }
  }

  /** The output of Join(Fields(s), " ") is single-spaced and only holds spaces and runes
      that `p` accepts, when `p` accepts every non-blank rune of `s`. */
  lemma JoinFieldsShape(s: string, p: char -> bool)
    requires forall i | 0 <= i < |s| :: !IsSpace(s[i]) ==> p(s[i])
    ensures SingleSpaced(Join(Fields(s), " "))
    ensures forall i | 0 <= i < |Join(Fields(s), " ")| :: Join(Fields(s), " ")[i] == ' ' || p(Join(Fields(s), " ")[i])
  {
    SplitRunsChars(s, IsNonSpace, p);
    JoinSingleSpaced(Fields(s), p);
  }

  /** Splitting a join on a separator rune that `keep` rejects gives the parts back. */
  lemma {:induction false} SplitJoinRoundTrip(ws: seq<string>, sep: char, keep: char -> bool)
    requires !keep(sep)
    requires forall w | w in ws :: w != [] && forall j | 0 <= j < |w| :: keep(w[j])
    ensures SplitRuns(Join(ws, [sep]), keep) == ws
    decreases |ws|
  {
    if ws == [] {
    } else {
      var w := ws[0];
      assert w in ws;
      var s := Join(ws, [sep]);
      RunLengthOfPrefix(w, if |ws| == 1 then [] else [sep] + Join(ws[1..], [sep]), keep);
      if |ws| == 1 {
        assert s == w + [];
        assert s[|w|..] == [];
      } else {
        assert forall v | v in ws[1..] :: v in ws;
        SplitJoinRoundTrip(ws[1..], sep, keep);
        var rest := Join(ws[1..], [sep]);
        assert s == w + ([sep] + rest);
        assert s[|w|..] == [sep] + rest;
        assert ([sep] + rest)[1..] == rest;
      }
    }
  }

  lemma {:induction false} RunLengthOfPrefix(w: string, tail: string, keep: char -> bool)
    requires w != [] && forall j | 0 <= j < |w| :: keep(w[j])
    requires tail != [] ==> !keep(tail[0])
    ensures RunLength(w + tail, keep) == |w|
    ensures (w + tail)[..|w|] == w && (w + tail)[|w|..] == tail
    decreases |w|
  {
    if |w| > 1 {
      RunLengthOfPrefix(w[1..], tail, keep);
      assert (w + tail)[1..] == w[1..] + tail;
    } else {
      assert (w + tail)[1..] == tail;
    }
  }

  /** Re-joining the fields of a single-spaced string reproduces it. */
  lemma {:induction false} JoinFieldsOfSingleSpaced(s: string)
    requires SingleSpaced(s)
    ensures Join(Fields(s), " ") == s
    decreases |s|
  {
    if s != [] {
      assert !IsSpace(s[0]);
      var n := RunLength(s, IsNonSpace);
      assert Fields(s) == [s[..n]] + Fields(s[n..]);
      if n < |s| {
        assert s[n] == ' ';
        assert n + 1 < |s|;
        var t := s[n + 1..];
        assert s[n..][1..] == t;
        assert Fields(s[n..]) == Fields(t);
        assert t[0] == s[n + 1] && t[0] != ' ' && !IsSpace(t[0]);
        assert SingleSpaced(t) by {
          assert forall i | 0 <= i < |t| :: t[i] == s[n + 1 + i];
        }
        JoinFieldsOfSingleSpaced(t);
        assert Fields(t) != [];
        assert Join(Fields(s), " ") == s[..n] + " " + Join(Fields(t), " ");
        assert s == s[..n] + " " + t;
      } else {
        assert s[n..] == [];
        assert s[..n] == s;
      }
    }
  }

  /** Joining fields never lengthens a string. */
  lemma {:induction false} JoinFieldsLength(s: string, keep: char -> bool)
    ensures |Join(SplitRuns(s, keep), " ")| <= |s|
    decreases |s|
  {
    if s == [] {
    } else if !keep(s[0]) {
      JoinFieldsLength(s[1..], keep);
    } else {
      var n := RunLength(s, keep);
      if n == |s| {
        assert s[n..] == [];
      } else {
        assert SplitRuns(s[n..], keep) == SplitRuns(s[n + 1..], keep) by {
          assert s[n..][1..] == s[n + 1..];
        }
        JoinFieldsLength(s[n + 1..], keep);
      }
    }
  }

  /** Concatenation regroups freely. */
  lemma AppendAssoc<T>(a: seq<T>, b: seq<T>, c: seq<T>)
    ensures (a + b) + c == a + (b + c)
  {
  }

  /** Taking one element out of a finite set shrinks it by one. */
  lemma RemoveOne<T>(s: set<T>, x: T)
    requires x in s
    ensures |s - {x}| == |s| - 1
  {
  }

  /** A non-empty set has an element (the witness for picking the next map key). */
  lemma Pick<T>(s: set<T>) returns (x: T)
    requires s != {}
    ensures x in s
  {
    x :| x in s;
  }
}
