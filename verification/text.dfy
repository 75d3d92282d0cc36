/**
 * The byte-string primitives the report builder relies on: Python's
 * `bytes.splitlines()`, `bytes.split()` with no argument, `bytes.strip()`
 * and `sep.join(...)`, plus `str.split(',')`, which the script itself never
 * calls: it is the reader's inverse of the comma joins the script writes,
 * used to state what those joins preserve. The benchmark's standard output
 * is a byte string; here every `char` stands for one byte.
 */
module Text {

  /** The bytes that `bytes.split()` with no argument treats as separators. */
  predicate IsSpace(c: char) {
    c == ' ' || c == '\t' || c == '\n' || c == '\r' || c == '\U{0B}' || c == '\U{0C}'
  }

  /** The bytes that end a line for `bytes.splitlines()`. */
  predicate IsLineBreak(c: char) {
    c == '\n' || c == '\r'
  }

  /** A token `bytes.split()` can produce: non-empty, no separator byte. */
  predicate IsToken(t: string) {
    |t| > 0 && forall i :: 0 <= i < |t| ==> !IsSpace(t[i])
  }

  /** A line `bytes.splitlines()` can produce: no line-break byte. */
  predicate IsLine(l: string) {
    forall i :: 0 <= i < |l| ==> !IsLineBreak(l[i])
  }

  // ---------------------------------------------------------------------------
  // bytes.split()

  /** Length of the maximal prefix of `s` that holds no separator. */
  function TokenEnd(s: string): (n: nat)
    ensures n <= |s|
    ensures forall i :: 0 <= i < n ==> !IsSpace(s[i])
    ensures n < |s| ==> IsSpace(s[n])
  {
    if |s| == 0 || IsSpace(s[0]) then 0 else 1 + TokenEnd(s[1..])
  }

  /**
   * `s.split()`: the maximal runs of non-separator bytes, in order; runs of
   * separators (leading, trailing, repeated) produce no empty tokens.
   */
  function Split(s: string): (r: seq<string>)
    ensures forall k :: 0 <= k < |r| ==> IsToken(r[k])
    ensures |r| <= |s|
    decreases |s|
  {
    if |s| == 0 then []
    else if IsSpace(s[0]) then Split(s[1..])
    else
      var n := TokenEnd(s);
      [s[..n]] + Split(s[n..])
  }

  /** `sep.join(parts)`. */
  function Join(parts: seq<string>, sep: string): (r: string)
  {
    if |parts| == 0 then ""
    else if |parts| == 1 then parts[0]
    else parts[0] + sep + Join(parts[1..], sep)
  }

  lemma {:induction false} TokenEndOfToken(t: string, rest: string)
    requires forall i :: 0 <= i < |t| ==> !IsSpace(t[i])
    requires |rest| == 0 || IsSpace(rest[0])
    ensures TokenEnd(t + rest) == |t|
  {
    if |t| > 0 {
      assert (t + rest)[1..] == t[1..] + rest;
      TokenEndOfToken(t[1..], rest);
    }
  }

  lemma {:induction false} SplitSkipsSpaces(s: string, rest: string)
    requires forall i :: 0 <= i < |s| ==> IsSpace(s[i])
    ensures Split(s + rest) == Split(rest)
    decreases |s|
  {
    if |s| > 0 {
      assert (s + rest)[0] == s[0];
      assert (s + rest)[1..] == s[1..] + rest;
      SplitSkipsSpaces(s[1..], rest);
    } else {
      assert s + rest == rest;
    }
  }

  /**
   * Splitting a single-space join of tokens gives the tokens back: the
   * tokenizer recovers every field of a row that the benchmark printed.
   */
  lemma {:induction false} SplitJoin(ts: seq<string>)
    requires forall k :: 0 <= k < |ts| ==> IsToken(ts[k])
    ensures Split(Join(ts, " ")) == ts
  {
    if |ts| == 1 {
      TokenEndOfToken(ts[0], "");
      assert ts[0] + "" == ts[0];
      assert ts[0][|ts[0]|..] == "";
    } else if |ts| > 1 {
      var rest := Join(ts[1..], " ");
      var s := ts[0] + " " + rest;
      assert s == ts[0] + (" " + rest);
      TokenEndOfToken(ts[0], " " + rest);
      assert s[..|ts[0]|] == ts[0];
      assert s[|ts[0]|..] == " " + rest;
      SplitSkipsSpaces(" ", rest);
      SplitJoin(ts[1..]);
    }
  }

  /** A run of separator bytes, possibly empty. */
  predicate IsGap(w: string) {
    forall i :: 0 <= i < |w| ==> IsSpace(w[i])
  }

  /**
   * Tokens laid out between gaps, as a column-aligned table prints them:
   * `gaps[0] + ts[0] + gaps[1] + ... + ts[n - 1] + gaps[n]`.
   */
  function Aligned(ts: seq<string>, gaps: seq<string>): (s: string)
    requires |gaps| == |ts| + 1
    decreases |ts|
  {
    if |ts| == 0 then gaps[0] else gaps[0] + ts[0] + Aligned(ts[1..], gaps[1..])
  }

  /** Gaps that keep tokens apart: separator runs, non-empty between two tokens. */
  predicate Separates(ts: seq<string>, gaps: seq<string>) {
    && |gaps| == |ts| + 1
    && (forall k :: 0 <= k < |gaps| ==> IsGap(gaps[k]))
    && (forall k :: 0 < k < |ts| ==> |gaps[k]| > 0)
  }

  /** A token followed by a separator, or by nothing, is split off whole. */
  lemma SplitToken(t: string, rest: string)
    requires IsToken(t)
    requires |rest| == 0 || IsSpace(rest[0])
    ensures Split(t + rest) == [t] + Split(rest)
  {
    TokenEndOfToken(t, rest);
    assert (t + rest)[..|t|] == t && (t + rest)[|t|..] == rest;
  }

  /** A laid-out line starts with its first gap, or with its first token when that gap is empty. */
  lemma AlignedStart(ts: seq<string>, gaps: seq<string>)
    requires |gaps| == |ts| + 1
    requires |gaps[0]| > 0 || (|ts| > 0 && |ts[0]| > 0)
    ensures |Aligned(ts, gaps)| > 0
    ensures Aligned(ts, gaps)[0] == if |gaps[0]| > 0 then gaps[0][0] else ts[0][0]
  {
  }

  /**
   * Splitting a laid-out line gives its tokens back, however wide the gaps:
   * leading and trailing whitespace and runs of whitespace between tokens
   * produce no tokens of their own.
   */
  lemma {:induction false} SplitAligned(ts: seq<string>, gaps: seq<string>)
    requires forall k :: 0 <= k < |ts| ==> IsToken(ts[k])
    requires Separates(ts, gaps)
    ensures Split(Aligned(ts, gaps)) == ts
  {
    if |ts| == 0 {
      SplitSkipsSpaces(gaps[0], "");
      assert gaps[0] + "" == gaps[0];
    } else {
      var rest := Aligned(ts[1..], gaps[1..]);
      assert Aligned(ts, gaps) == gaps[0] + (ts[0] + rest);
      SplitSkipsSpaces(gaps[0], ts[0] + rest);
      if |ts| > 1 {
        AlignedStart(ts[1..], gaps[1..]);
      } else {
        assert rest == gaps[1];
      }
      SplitToken(ts[0], rest);
      SplitAligned(ts[1..], gaps[1..]);
    }
  }

  /** Laying out single-line tokens with single-line gaps gives a single line. */
  lemma {:induction false} AlignedKeepsLines(ts: seq<string>, gaps: seq<string>)
    requires |gaps| == |ts| + 1
    requires forall k :: 0 <= k < |ts| ==> IsLine(ts[k])
    requires forall k :: 0 <= k < |gaps| ==> IsLine(gaps[k])
    ensures IsLine(Aligned(ts, gaps))
  {
    if |ts| > 0 {
      AlignedKeepsLines(ts[1..], gaps[1..]);
      var rest := Aligned(ts[1..], gaps[1..]);
      var s := gaps[0] + ts[0] + rest;
      assert IsLine(gaps[0]) && IsLine(ts[0]);
      forall i | 0 <= i < |s|
        ensures !IsLineBreak(s[i])
      {
        if i < |gaps[0]| {
          assert s[i] == gaps[0][i];
        } else if i < |gaps[0]| + |ts[0]| {
          assert s[i] == ts[0][i - |gaps[0]|];
        } else {
          assert s[i] == rest[i - |gaps[0]| - |ts[0]|];
        }
      }
    }
  }

  // ---------------------------------------------------------------------------
  // bytes.splitlines()

  /** Index of the first line-break byte of `s`, or `|s|` if there is none. */
  function LineEnd(s: string): (n: nat)
    ensures n <= |s|
    ensures forall i :: 0 <= i < n ==> !IsLineBreak(s[i])
    ensures n < |s| ==> IsLineBreak(s[n])
  {
    if |s| == 0 || IsLineBreak(s[0]) then 0 else 1 + LineEnd(s[1..])
  }

  /**
   * `s.splitlines()`: lines end at "\n", "\r" or "\r\n", the terminator is
   * dropped, and a final terminator does not open an empty last line.
   */
  function SplitLines(s: string): (r: seq<string>)
    ensures forall k :: 0 <= k < |r| ==> IsLine(r[k])
    ensures |r| <= |s|
    decreases |s|
  {
    if |s| == 0 then []
    else
      var n := LineEnd(s);
      if n == |s| then [s]
      else
        var skip := if s[n] == '\r' && n + 1 < |s| && s[n + 1] == '\n' then 2 else 1;
        [s[..n]] + SplitLines(s[n + skip..])
  }

  /** Each line followed by "\n": how a program prints a sequence of lines. */
  function Terminated(ls: seq<string>): string
  {
    if |ls| == 0 then "" else ls[0] + "\n" + Terminated(ls[1..])
  }

  lemma {:induction false} LineEndOfLine(l: string, rest: string)
    requires IsLine(l)
    ensures LineEnd(l + "\n" + rest) == |l|
  {
    if |l| > 0 {
      assert (l + "\n" + rest)[1..] == l[1..] + "\n" + rest;
      LineEndOfLine(l[1..], rest);
    }
  }

  /** Splitting printed lines gives the lines back. */
  lemma {:induction false} SplitLinesTerminated(ls: seq<string>)
    requires forall k :: 0 <= k < |ls| ==> IsLine(ls[k])
    ensures SplitLines(Terminated(ls)) == ls
  {
    if |ls| > 0 {
      var rest := Terminated(ls[1..]);
      var s := ls[0] + "\n" + rest;
      LineEndOfLine(ls[0], rest);
      assert s[|ls[0]|] == '\n';
      assert s[..|ls[0]|] == ls[0];
      assert s[|ls[0]| + 1..] == rest;
      SplitLinesTerminated(ls[1..]);
    }
  }

  // ---------------------------------------------------------------------------
  // str.split(sep) for a one-character separator

  /** Index of the first `c` in `s`, or `|s|` if there is none. */
  function CharIndex(s: string, c: char): (n: nat)
    ensures n <= |s|
    ensures forall i :: 0 <= i < n ==> s[i] != c
    ensures n < |s| ==> s[n] == c
  {
    if |s| == 0 || s[0] == c then 0 else 1 + CharIndex(s[1..], c)
  }

  /** `s.split(c)`: every occurrence of `c` separates two (possibly empty) fields. */
  function SplitOn(s: string, c: char): (r: seq<string>)
    ensures |r| > 0
    ensures forall k :: 0 <= k < |r| ==> c !in r[k]
    decreases |s|
  {
    var n := CharIndex(s, c);
    if n == |s| then [s] else [s[..n]] + SplitOn(s[n + 1..], c)
  }

  lemma {:induction false} CharIndexOfField(p: string, c: char, rest: string)
    requires c !in p
    ensures CharIndex(p + [c] + rest, c) == |p|
  {
    if |p| > 0 {
      assert (p + [c] + rest)[1..] == p[1..] + [c] + rest;
      CharIndexOfField(p[1..], c, rest);
    }
  }

  /** `s.split(c)` undoes `c.join(parts)` when no part contains `c`. */
  lemma {:induction false} SplitOnJoin(parts: seq<string>, c: char)
    requires |parts| > 0
    requires forall k :: 0 <= k < |parts| ==> c !in parts[k]
    ensures SplitOn(Join(parts, [c]), c) == parts
  {
    if |parts| == 1 {
      assert CharIndex(parts[0], c) == |parts[0]|;
    } else {
      var rest := Join(parts[1..], [c]);
      var s := parts[0] + [c] + rest;
      assert Join(parts, [c]) == s;
      CharIndexOfField(parts[0], c, rest);
      assert s[..|parts[0]|] == parts[0];
      assert s[|parts[0]| + 1..] == rest;
      assert SplitOn(s, c) == [parts[0]] + SplitOn(rest, c);
      SplitOnJoin(parts[1..], c);
      assert [parts[0]] + parts[1..] == parts;
    }
  }

  /** Every part after the first, prefixed with `pad`. */
  function PadTail(parts: seq<string>, pad: string): (r: seq<string>)
    ensures |r| == |parts|
    ensures |parts| > 0 ==> r[0] == parts[0]
    ensures forall k :: 0 < k < |parts| ==> r[k] == pad + parts[k]
  {
    seq(|parts|, k requires 0 <= k < |parts| => if k == 0 then parts[0] else pad + parts[k])
  }

  /** A prefix of a join belongs to its first part. */
  lemma JoinPrefixHead(q: seq<string>, pre: string, sep: string)
    requires |q| > 0
    ensures pre + Join(q, sep) == Join([pre + q[0]] + q[1..], sep)
  {
    var q' := [pre + q[0]] + q[1..];
    if |q| > 1 {
      assert q'[1..] == q[1..];
    }
  }

  /**
   * Joining with the separator `c` followed by `pad` is joining with `c`
   * alone after padding every part but the first: `", ".join(p)` splits on
   * commas into the first part and the blank-prefixed others.
   */
  lemma {:induction false} JoinWiderSeparator(parts: seq<string>, c: char, pad: string)
    requires |parts| > 0
    ensures Join(parts, [c] + pad) == Join(PadTail(parts, pad), [c])
  {
    if |parts| > 1 {
      var q := PadTail(parts[1..], pad);
      JoinWiderSeparator(parts[1..], c, pad);
      JoinPrefixHead(q, pad, [c]);
      assert [pad + q[0]] + q[1..] == PadTail(parts, pad)[1..];
      assert Join(parts, [c] + pad) == parts[0] + [c] + (pad + Join(q, [c]));
    }
  }

  // ---------------------------------------------------------------------------
  // bytes.strip()

  /** `s` without its leading separator bytes. */
  function StripLeft(s: string): (r: string)
    ensures |r| <= |s| && r == s[|s| - |r|..]
    ensures |r| == 0 || !IsSpace(r[0])
    ensures forall i :: 0 <= i < |s| - |r| ==> IsSpace(s[i])
  {
    if |s| > 0 && IsSpace(s[0]) then StripLeft(s[1..]) else s
  }

  /** `s` without its trailing separator bytes. */
  function StripRight(s: string): (r: string)
    ensures |r| <= |s| && r == s[..|r|]
    ensures |r| == 0 || !IsSpace(r[|r| - 1])
    ensures forall i :: |r| <= i < |s| ==> IsSpace(s[i])
  {
    if |s| > 0 && IsSpace(s[|s| - 1]) then StripRight(s[..|s| - 1]) else s
  }

  /** `r` is `s` with `i` separator bytes removed in front and only separators removed behind. */
  predicate TrimmedAt(s: string, r: string, i: int) {
    && 0 <= i <= |s| - |r|
    && r == s[i..i + |r|]
    && (forall k :: 0 <= k < i ==> IsSpace(s[k]))
    && (forall k :: i + |r| <= k < |s| ==> IsSpace(s[k]))
  }

  /** `bytes.strip()`: `s` without its leading and trailing separator bytes. */
  function Strip(s: string): (r: string)
    ensures |r| == 0 || (!IsSpace(r[0]) && !IsSpace(r[|r| - 1]))
    ensures exists i :: TrimmedAt(s, r, i)
  {
    var l := StripLeft(s);
    var r := StripRight(l);
    assert TrimmedAt(s, r, |s| - |l|);
    r
  }
}
