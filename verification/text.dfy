/**
  The Python string operations that the GDM reply parser relies on:
  `str.splitlines()`, `str.split(sep)` for a one-character separator,
  `str.strip()` without arguments, and the substring test `sub in s`.
  Strings are sequences of Unicode scalar values, which is what a strict
  UTF-8 decode yields (Python's `str` may also hold lone surrogates, which
  no reply decoded that way contains).
*/
module Text {

  /** The characters for which Python's `str.isspace()` holds; `str.strip()` removes these. */
  predicate IsSpace(c: char) {
    || ('\t' <= c <= '\r')
    || ('\U{1C}' <= c <= '\U{1F}')
    || c == ' ' || c == '\U{85}' || c == '\U{A0}' || c == '\U{1680}'
    || ('\U{2000}' <= c <= '\U{200A}')
    || c == '\U{2028}' || c == '\U{2029}' || c == '\U{202F}' || c == '\U{205F}' || c == '\U{3000}'
  }

  /** The characters at which Python's `str.splitlines()` ends a line ("\r\n" ends one line). */
  predicate IsLineBreak(c: char) {
    || c == '\n' || c == '\r' || c == '\U{0B}' || c == '\U{0C}'
    || ('\U{1C}' <= c <= '\U{1E}')
    || c == '\U{85}' || c == '\U{2028}' || c == '\U{2029}'
  }

  predicate NoLineBreak(s: string) {
    forall i :: 0 <= i < |s| ==> !IsLineBreak(s[i])
  }

  /** Python's `sub in s` on strings: `sub` occurs in `s` as a contiguous block. */
  predicate Contains(s: string, sub: string): (b: bool)
    ensures sub <= s ==> b
    ensures b ==> |sub| <= |s|
  {
    assert s[0..] == s;
    exists i :: 0 <= i <= |s| && sub <= s[i..]
  }

  /** The index of the first line break in `s`, or `|s|` if there is none. */
  function LineEnd(s: string): (i: nat)
    ensures i <= |s|
    ensures forall j :: 0 <= j < i ==> !IsLineBreak(s[j])
    ensures i < |s| ==> IsLineBreak(s[i])
  {
    if s == [] || IsLineBreak(s[0]) then 0 else 1 + LineEnd(s[1..])
  }

  /**
    Python's `s.splitlines()`: the lines of `s` without their terminators.
    A "\r" directly followed by "\n" ends a single line, and a terminator at
    the very end of `s` does not start a further, empty line.
  */
  function SplitLines(s: string): (lines: seq<string>)
    ensures lines == [] <==> s == []
    ensures s != [] ==> lines[0] == s[..LineEnd(s)]
    ensures forall k :: 0 <= k < |lines| ==> NoLineBreak(lines[k])
    decreases |s|
  {
    if s == [] then []
    else
      var i := LineEnd(s);
      if i == |s| then [s]
      else
        [s[..i]] + SplitLines(s[NextLine(s, i)..])
  }

  /** Where the line after a terminator starting at `i` begins: "\r\n" is one terminator. */
  function NextLine(s: string, i: nat): (next: nat)
    requires i < |s|
    ensures i < next <= |s|
  {
    if s[i] == '\r' && i + 1 < |s| && s[i + 1] == '\n' then i + 2 else i + 1
  }

  /** A line terminator that `splitlines()` recognises: "\r\n", or a single boundary character. */
  predicate IsTerminator(t: string) {
    t == "\r\n" || (|t| == 1 && IsLineBreak(t[0]))
  }

  /**
    The terminators that `splitlines()` drops, one per line. The last line
    may have none (the empty string); every other terminator is a real one.
  */
  function LineEnds(s: string): (ends: seq<string>)
    ensures |ends| == |SplitLines(s)|
    ensures forall k :: 0 <= k < |ends| ==> IsTerminator(ends[k]) || (k == |ends| - 1 && ends[k] == "")
    decreases |s|
  {
    if s == [] then []
    else
      var i := LineEnd(s);
      if i == |s| then [""]
      else
        var next := NextLine(s, i);
        assert IsTerminator(s[i..next]);
        [s[i..next]] + LineEnds(s[next..])
  }

  /** Lines glued back together, each followed by its terminator. */
  function Rejoin(lines: seq<string>, ends: seq<string>): string
    requires |lines| == |ends|
  {
    if lines == [] then "" else lines[0] + ends[0] + Rejoin(lines[1..], ends[1..])
  }

  /**
    `splitlines()` loses nothing but the terminators: the lines of `s`, each
    followed by its terminator, give back `s`.
  */
  lemma {:induction false} SplitLinesRejoin(s: string)
    ensures Rejoin(SplitLines(s), LineEnds(s)) == s
    decreases |s|
  {
    if s != [] {
      var i := LineEnd(s);
      if i < |s| {
        var next := NextLine(s, i);
        var t := s[next..];
        SplitLinesRejoin(t);
        SplitLinesStep(s, i, next);
        RejoinCons(s[..i], s[i..next], SplitLines(t), LineEnds(t));
        SlicesJoin(s, i, next);
      } else {
        assert s[..|s|] == s;
      }
    }
  }

  /** A last line that has no terminator is not empty: text ending in a terminator has no empty line after it. */
  lemma {:induction false} UnterminatedLastLine(s: string)
    ensures var ends := LineEnds(s);
            ends != [] && ends[|ends| - 1] == "" ==> SplitLines(s)[|ends| - 1] != ""
    decreases |s|
  {
    if s != [] {
      var i := LineEnd(s);
      if i < |s| {
        var next := NextLine(s, i);
        UnterminatedLastLine(s[next..]);
        SplitLinesStep(s, i, next);
      } else {
        assert s[..|s|] == s;
      }
    }
  }

  /**
    "\r\n" is one terminator: a "\r" terminator is never followed by an
    empty line that ends in "\n".
  */
  lemma {:induction false} CrLfOneTerminator(s: string, k: nat)
    requires k + 1 < |LineEnds(s)| && LineEnds(s)[k] == "\r"
    ensures !(SplitLines(s)[k + 1] == "" && LineEnds(s)[k + 1] == "\n")
    decreases |s|
  {
    var i := LineEnd(s);
    assert i < |s|;
    var next := NextLine(s, i);
    var t := s[next..];
    SplitLinesStep(s, i, next);
    if k == 0 {
      LoneCr(s, i, next);
    } else {
      ConsIndex(s[i..next], LineEnds(t), k);
      ConsIndex(s[..i], SplitLines(t), k);
      CrLfOneTerminator(t, k - 1);
    }
  }

  /** After a lone "\r", the next line, if it is empty, does not end in "\n". */
  lemma {:induction false} LoneCr(s: string, i: nat, next: nat)
    requires i < |s| && next == NextLine(s, i) && s[i..next] == "\r" && next < |s|
    ensures SplitLines(s[next..])[0] == "" ==> LineEnds(s[next..])[0] != "\n"
  {
    var t := s[next..];
    assert s[i] == '\r' && next == i + 1 && t[0] == s[i + 1];
    if SplitLines(t)[0] == "" {
      assert LineEnd(t) == 0;
      assert LineEnds(t)[0][0] == t[0];
    }
  }

  lemma {:induction false} ConsIndex<T>(x: T, xs: seq<T>, k: nat)
    requires 0 < k < |xs|
    ensures ([x] + xs)[k] == xs[k - 1] && ([x] + xs)[k + 1] == xs[k]
  {
  }

  /** One line and its terminator split off the front of `s`. */
  lemma {:induction false} SplitLinesStep(s: string, i: nat, next: nat)
    requires s != [] && i == LineEnd(s) && i < |s| && next == NextLine(s, i)
    ensures SplitLines(s) == [s[..i]] + SplitLines(s[next..])
    ensures LineEnds(s) == [s[i..next]] + LineEnds(s[next..])
  {
  }

  lemma {:induction false} SlicesJoin(s: string, i: nat, j: nat)
    requires i <= j <= |s|
    ensures s[..i] + s[i..j] + s[j..] == s
  {
  }

  lemma {:induction false} RejoinCons(line: string, end: string, lines: seq<string>, ends: seq<string>)
    requires |lines| == |ends|
    ensures Rejoin([line] + lines, [end] + ends) == line + end + Rejoin(lines, ends)
  {
    assert ([line] + lines)[1..] == lines;
    assert ([end] + ends)[1..] == ends;
  }


  /** Each line followed by "\r\n": the layout of a GDM reply datagram. */
  function CrlfTerminated(lines: seq<string>): string {
    if lines == [] then "" else lines[0] + "\r\n" + CrlfTerminated(lines[1..])
  }

  lemma {:induction false} CrlfTerminatedSnoc(lines: seq<string>, line: string)
    ensures CrlfTerminated(lines + [line]) == CrlfTerminated(lines) + line + "\r\n"
    decreases |lines|
  {
    if lines == [] {
      assert lines + [line] == [line];
    } else {
      assert (lines + [line])[1..] == lines[1..] + [line];
      CrlfTerminatedSnoc(lines[1..], line);
    }
  }

  /** `splitlines` undoes CRLF termination of lines that hold no line break. */
  lemma {:induction false} SplitLinesOfCrlfTerminated(lines: seq<string>)
    requires forall k :: 0 <= k < |lines| ==> NoLineBreak(lines[k])
    ensures SplitLines(CrlfTerminated(lines)) == lines
    decreases |lines|
  {
    if lines != [] {
      var s := CrlfTerminated(lines);
      var rest := CrlfTerminated(lines[1..]);
      assert s == lines[0] + "\r\n" + rest;
      var i := LineEnd(s);
      assert s[|lines[0]|] == '\r';
      assert i == |lines[0]|;
      assert s[..i] == lines[0];
      assert NextLine(s, i) == i + 2;
      assert s[i + 2..] == rest;
      SplitLinesOfCrlfTerminated(lines[1..]);
    }
  }

  /** The number of occurrences of `c` in `s`. */
  function Count(s: string, c: char): (n: nat)
    ensures n == 0 <==> c !in s
    ensures n <= |s|
  {
    if s == [] then 0 else (if s[0] == c then 1 else 0) + Count(s[1..], c)
  }

  lemma {:induction false} CountConcat(a: string, b: string, c: char)
    ensures Count(a + b, c) == Count(a, c) + Count(b, c)
    decreases |a|
  {
    if a != [] {
      assert (a + b)[1..] == a[1..] + b;
      CountConcat(a[1..], b, c);
    } else {
      assert a + b == b;
    }
  }

  /** `parts` glued together with `c` between neighbours: Python's `c.join(parts)`. */
  function Join(parts: seq<string>, c: char): string
    requires parts != []
  {
    if |parts| == 1 then parts[0] else parts[0] + [c] + Join(parts[1..], c)
  }

  /**
    Python's `s.split(c)`: the maximal pieces of `s` between occurrences of `c`.
    There is one more piece than there are separators, no piece holds `c`, and
    joining the pieces with `c` gives back `s`.
  */
  function Split(s: string, c: char): (parts: seq<string>)
    ensures |parts| == Count(s, c) + 1
    ensures forall k :: 0 <= k < |parts| ==> c !in parts[k]
    ensures Join(parts, c) == s
  {
    if s == [] then [""]
    else
      var rest := Split(s[1..], c);
      if s[0] == c then
        assert s == [c] + s[1..];
        [""] + rest
      else
        JoinExtendFirst(s[0], rest, c);
        assert s == [s[0]] + s[1..];
        [[s[0]] + rest[0]] + rest[1..]
  }

  lemma {:induction false} JoinExtendFirst(x: char, parts: seq<string>, c: char)
    requires parts != []
    ensures Join([[x] + parts[0]] + parts[1..], c) == [x] + Join(parts, c)
  {
    var ext := [[x] + parts[0]] + parts[1..];
    if |parts| > 1 {
      assert ext[1..] == parts[1..];
    }
  }

  /** The index of the first `c` in `s`. */
  function IndexOf(s: string, c: char): (i: nat)
    requires c in s
    ensures i < |s| && s[i] == c && c !in s[..i]
  {
    if s[0] == c then 0 else 1 + IndexOf(s[1..], c)
  }

  /** With exactly one `c` in `s`, `split` yields the text before it and the text after it. */
  lemma {:induction false} SplitAtSingle(s: string, c: char)
    requires Count(s, c) == 1
    ensures Split(s, c) == [s[..IndexOf(s, c)], s[IndexOf(s, c) + 1..]]
  {
    var t := s[1..];
    if s[0] == c {
      SplitWithout(t, c);
      assert s[..0] == "" && s[1..] == t;
    } else {
      assert Count(t, c) == 1;
      SplitAtSingle(t, c);
      SplitExtendsFirst(s, c);
      SliceAfterHead(s, IndexOf(t, c));
    }
  }

  /** A first character other than `c` joins the first piece of the rest. */
  lemma {:induction false} SplitExtendsFirst(s: string, c: char)
    requires s != [] && s[0] != c
    ensures Split(s, c) == [[s[0]] + Split(s[1..], c)[0]] + Split(s[1..], c)[1..]
    ensures c in s[1..] ==> IndexOf(s, c) == IndexOf(s[1..], c) + 1
  {
  }

  /** The pieces of `s` around index `i + 1`, read off `s[1..]` around index `i`. */
  lemma {:induction false} SliceAfterHead(s: string, i: nat)
    requires i + 1 < |s|
    ensures [s[0]] + s[1..][..i] == s[..i + 1]
    ensures s[1..][i + 1..] == s[i + 2..]
  {
  }

  /** Without `c` in `s`, `split` yields `s` alone. */
  lemma {:induction false} SplitWithout(s: string, c: char)
    requires Count(s, c) == 0
    ensures Split(s, c) == [s]
  {
    if s != [] {
      SplitWithout(s[1..], c);
      assert [s[0]] + s[1..] == s;
    }
  }

  lemma {:induction false} PieceBoundary(a: string, b: string, c: char)
    requires c !in a && b != [] && b[0] == c
    ensures IndexOf(a + b, c) == |a|
    decreases |a|
  {
    if a != [] {
      assert (a + b)[1..] == a[1..] + b;
      PieceBoundary(a[1..], b, c);
    }
  }

  /** The index of the first non-whitespace character of `s` at or after `i`, or `|s|`. */
  function SkipSpace(s: string, i: nat): (a: nat)
    requires i <= |s|
    ensures i <= a <= |s|
    ensures forall j :: i <= j < a ==> IsSpace(s[j])
    ensures a < |s| ==> !IsSpace(s[a])
    decreases |s| - i
  {
    if i == |s| || !IsSpace(s[i]) then i else SkipSpace(s, i + 1)
  }

  /** The end of `s[a..e]` once its trailing whitespace is dropped. */
  function SkipSpaceBack(s: string, a: nat, e: nat): (b: nat)
    requires a <= e <= |s|
    ensures a <= b <= e
    ensures forall j :: b <= j < e ==> IsSpace(s[j])
    ensures a < b ==> !IsSpace(s[b - 1])
    decreases e
  {
    if e == a || !IsSpace(s[e - 1]) then e else SkipSpaceBack(s, a, e - 1)
  }

  /** `r` is the block of `s` that starts at index `a`, and only whitespace lies around it. */
  ghost predicate StrippedAt(s: string, r: string, a: nat) {
    && a + |r| <= |s| && r == s[a..a + |r|]
    && (forall i :: 0 <= i < a ==> IsSpace(s[i]))
    && (forall i :: a + |r| <= i < |s| ==> IsSpace(s[i]))
  }

  /**
    Python's `s.strip()`: `s` without its leading and trailing whitespace. The
    result is a block of `s`, only whitespace lies around it, and neither of
    its ends is whitespace.
  */
  function Strip(s: string): (r: string)
    ensures exists a :: StrippedAt(s, r, a)
    ensures r != [] ==> !IsSpace(r[0]) && !IsSpace(r[|r| - 1])
  {
    var a := SkipSpace(s, 0);
    var b := SkipSpaceBack(s, a, |s|);
    assert StrippedAt(s, s[a..b], a);
    s[a..b]
  }

  /** A string without surrounding whitespace is left unchanged by `strip`. */
  lemma {:induction false} StripUnchanged(s: string)
    requires s != [] ==> !IsSpace(s[0]) && !IsSpace(s[|s| - 1])
    ensures Strip(s) == s
  {
    assert SkipSpace(s, 0) == 0;
    assert SkipSpaceBack(s, 0, |s|) == |s|;
    assert s[0..|s|] == s;
  }

  /** `strip` is idempotent. */
  lemma {:induction false} StripIdempotent(s: string)
    ensures Strip(Strip(s)) == Strip(s)
  {
    StripUnchanged(Strip(s));
  }

  /** Leading whitespace makes no difference to `strip`. */
  lemma {:induction false} StripSkipsLeadingSpace(w: string, s: string)
    requires forall i :: 0 <= i < |w| ==> IsSpace(w[i])
    ensures Strip(w + s) == Strip(s)
  {
    StripBounds(w + s);
    StripBounds(s);
    StrippedBlockShifts(w, s);
  }

  /** The block that `strip` keeps in `w + s` is the one it keeps in `s`. */
  lemma {:induction false} StrippedBlockShifts(w: string, s: string)
    requires forall i :: 0 <= i < |w| ==> IsSpace(w[i])
    ensures var ws := w + s; var a := SkipSpace(ws, 0);
            ws[a..SkipSpaceBack(ws, a, |ws|)] == s[SkipSpace(s, 0)..SkipSpaceBack(s, SkipSpace(s, 0), |s|)]
  {
    var a := SkipSpace(s, 0);
    var b := SkipSpaceBack(s, a, |s|);
    LeadingSpaceShifts(w, s);
    BlockShift(w, s, SkipSpace(w + s, 0), SkipSpaceBack(w + s, |w| + a, |w + s|), a, b);
  }

  lemma {:induction false} BlockShift(w: string, s: string, a': nat, b': nat, a: nat, b: nat)
    requires a <= b <= |s| && a' == |w| + a && b' == |w| + b
    ensures (w + s)[a'..b'] == s[a..b]
  {
  }

  /** `strip` keeps the block between the first skip forward and the skip back from the end. */
  lemma {:induction false} StripBounds(s: string)
    ensures Strip(s) == s[SkipSpace(s, 0)..SkipSpaceBack(s, SkipSpace(s, 0), |s|)]
  {
  }

  /** In `w + s`, with `w` all whitespace, the stripped block is that of `s`, shifted by `|w|`. */
  lemma {:induction false} LeadingSpaceShifts(w: string, s: string)
    requires forall i :: 0 <= i < |w| ==> IsSpace(w[i])
    ensures SkipSpace(w + s, 0) == |w| + SkipSpace(s, 0)
    ensures SkipSpaceBack(w + s, |w| + SkipSpace(s, 0), |w + s|) == |w| + SkipSpaceBack(s, SkipSpace(s, 0), |s|)
  {
    var ws := w + s;
    forall j | 0 <= j < |w|
      ensures IsSpace(ws[j])
    {
      assert ws[j] == w[j];
    }
    SkipSpaceOverSpace(ws, 0, |w|);
    SkipSpaceShift(w, s, 0);
    SkipSpaceBackShift(w, s, SkipSpace(s, 0), |s|);
  }

  /** Skipping from `i` passes over a whitespace run `s[i..k]`. */
  lemma {:induction false} SkipSpaceOverSpace(s: string, i: nat, k: nat)
    requires i <= k <= |s|
    requires forall j :: i <= j < k ==> IsSpace(s[j])
    ensures SkipSpace(s, i) == SkipSpace(s, k)
    decreases k - i
  {
    if i < k {
      SkipSpaceOverSpace(s, i + 1, k);
    }
  }

  /** Skipping whitespace in `w + s` past `w` is skipping it in `s`. */
  lemma {:induction false} SkipSpaceShift(w: string, s: string, i: nat)
    requires i <= |s|
    ensures SkipSpace(w + s, |w| + i) == |w| + SkipSpace(s, i)
    decreases |s| - i
  {
    if i < |s| {
      assert (w + s)[|w| + i] == s[i];
      if IsSpace(s[i]) {
        SkipSpaceShift(w, s, i + 1);
      }
    }
  }

  /** Dropping trailing whitespace in `w + s` past `w` is dropping it in `s`. */
  lemma {:induction false} SkipSpaceBackShift(w: string, s: string, a: nat, e: nat)
    requires a <= e <= |s|
    ensures SkipSpaceBack(w + s, |w| + a, |w| + e) == |w| + SkipSpaceBack(s, a, e)
    decreases e
  {
    if a < e {
      assert (w + s)[|w| + e - 1] == s[e - 1];
      if IsSpace(s[e - 1]) {
        SkipSpaceBackShift(w, s, a, e - 1);
      }
    }
  }
}
