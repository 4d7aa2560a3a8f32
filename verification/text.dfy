/**
 * The string operations of Python's `str` that the pipeline uses: `strip`,
 * `count` and `split` on the triple-backtick fence, `splitlines`, `join`,
 * `lower`, `in` (substring search) and the decimal rendering of an int in
 * an f-string.
 */
module Text {

  /** Python's `str.isspace` for one character (the characters `str.strip()` removes). */
  predicate IsSpace(c: char) {
    c in {' ', '\t', '\n', '\r', '\U{0B}', '\U{0C}', '\U{1C}', '\U{1D}', '\U{1E}', '\U{1F}',
          '\U{85}', '\U{A0}', '\U{1680}', '\U{2028}', '\U{2029}', '\U{202F}', '\U{205F}', '\U{3000}'}
    || ('\U{2000}' <= c <= '\U{200A}')
  }

  /** No leading and no trailing whitespace. */
  predicate IsStripped(s: string) {
    s == [] || (!IsSpace(s[0]) && !IsSpace(s[|s| - 1]))
  }

  predicate AllSpace(s: string) {
    forall i :: 0 <= i < |s| ==> IsSpace(s[i])
  }

  /** The number of whitespace characters `s` starts with. */
  function LeadingSpace(s: string): (k: nat)
    ensures k <= |s|
    ensures k < |s| ==> !IsSpace(s[k])
  {
    if s != [] && IsSpace(s[0]) then 1 + LeadingSpace(s[1..]) else 0
  }

  /** The number of whitespace characters `s` ends with. */
  function TrailingSpace(s: string): (k: nat)
    ensures k <= |s|
    ensures k < |s| ==> !IsSpace(s[|s| - 1 - k])
  {
    if s != [] && IsSpace(s[|s| - 1]) then 1 + TrailingSpace(s[..|s| - 1]) else 0
  }

  /** `s.strip()`: `s` without its leading and trailing whitespace. */
  function Strip(s: string): (r: string)
    ensures IsStripped(r)
    ensures |r| <= |s|
  {
    var t := s[LeadingSpace(s)..];
    t[..|t| - TrailingSpace(t)]
  }

  lemma {:induction false} LeadingSpaceOfBlank(s: string)
    ensures LeadingSpace(s) == |s| <==> AllSpace(s)
  {
    if s != [] && IsSpace(s[0]) {
      LeadingSpaceOfBlank(s[1..]);
      assert AllSpace(s) <==> AllSpace(s[1..]) by {
        if AllSpace(s[1..]) {
          forall i | 0 < i < |s| ensures IsSpace(s[i]) { assert s[i] == s[1..][i - 1]; }
        }
        if AllSpace(s) {
          forall i | 0 <= i < |s| - 1 ensures IsSpace(s[1..][i]) { assert s[1..][i] == s[i + 1]; }
        }
      }
    }
  }

  /** A string strips to nothing exactly when it is all whitespace. */
  lemma StripEmptyIffBlank(s: string)
    ensures Strip(s) == [] <==> AllSpace(s)
  {
    LeadingSpaceOfBlank(s);
    var t := s[LeadingSpace(s)..];
    if t != [] {
      assert !IsSpace(t[0]);
      assert TrailingSpace(t) < |t| by {
        if TrailingSpace(t) == |t| { TrailingSpaceBound(t); }
      }
    }
  }

  lemma {:induction false} TrailingSpaceBound(s: string)
    requires s != [] && !IsSpace(s[0])
    ensures TrailingSpace(s) < |s|
  {
    if IsSpace(s[|s| - 1]) {
      TrailingSpaceBound(s[..|s| - 1]);
    }
  }

  /** The leading run that `Strip` drops is all whitespace. */
  lemma {:induction false} LeadingSpaceIsSpace(s: string)
    ensures AllSpace(s[..LeadingSpace(s)])
  {
    if s != [] && IsSpace(s[0]) {
      LeadingSpaceIsSpace(s[1..]);
      var k := LeadingSpace(s[1..]);
      forall i | 0 <= i < 1 + k ensures IsSpace(s[i]) {
        if i > 0 { assert s[i] == s[1..][..k][i - 1]; }
      }
    }
  }

  /** The trailing run that `Strip` drops is all whitespace. */
  lemma {:induction false} TrailingSpaceIsSpace(s: string)
    ensures AllSpace(s[|s| - TrailingSpace(s)..])
  {
    if s != [] && IsSpace(s[|s| - 1]) {
      var s' := s[..|s| - 1];
      TrailingSpaceIsSpace(s');
      var k := TrailingSpace(s');
      forall i | |s| - 1 - k <= i < |s| ensures IsSpace(s[i]) {
        if i < |s| - 1 { assert s[i] == s'[|s'| - k..][i - (|s| - 1 - k)]; }
      }
    }
  }

  /**
   * `s.strip()` removes a leading and a trailing run of whitespace and
   * nothing else, and what is left neither starts nor ends with whitespace.
   */
  lemma StripTrims(s: string)
    ensures IsStripped(Strip(s))
    ensures exists i, j :: 0 <= i <= j <= |s| && Strip(s) == s[i..j] && AllSpace(s[..i]) && AllSpace(s[j..])
  {
    var i := LeadingSpace(s);
    var t := s[i..];
    var j := i + |t| - TrailingSpace(t);
    LeadingSpaceIsSpace(s);
    TrailingSpaceIsSpace(t);
    assert Strip(s) == s[i..j];
    assert s[j..] == t[|t| - TrailingSpace(t)..];
  }

  /** Stripping is idempotent: a stripped string is its own strip. */
  lemma StripIdempotent(s: string)
    ensures Strip(Strip(s)) == Strip(s)
  {
    var t := Strip(s);
    assert LeadingSpace(t) == 0;
    assert TrailingSpace(t) == 0;
  }

  const Fence: string := "```"

  /** `s.count("```")`: non-overlapping occurrences, scanning left to right. */
  function CountFences(s: string): nat {
    if |s| < 3 then 0
    else if s[..3] == Fence then 1 + CountFences(s[3..])
    else CountFences(s[1..])
  }

  /** A character that is not a backtick cannot start a fence. */
  lemma {:induction false} CountFencesSkip(s: string)
    requires s != [] && s[0] != '`'
    ensures CountFences(s) == CountFences(s[1..])
  {
  }

  /** `s.split("```")`. */
  function SplitOnFence(s: string): (pieces: seq<string>)
    ensures |pieces| == CountFences(s) + 1
  {
    if |s| < 3 then [s]
    else if s[..3] == Fence then [""] + SplitOnFence(s[3..])
    else
      var rest := SplitOnFence(s[1..]);
      [[s[0]] + rest[0]] + rest[1..]
  }

  predicate NoBacktick(a: string) {
    forall i :: 0 <= i < |a| ==> a[i] != '`'
  }

  /** A stretch without backticks joins the first piece of whatever follows it. */
  lemma {:induction false} SplitOnFenceSkipsPlainPrefix(a: string, rest: string)
    requires NoBacktick(a)
    ensures SplitOnFence(a + rest) == [a + SplitOnFence(rest)[0]] + SplitOnFence(rest)[1..]
  {
    var f := SplitOnFence(rest);
    if a == [] {
      assert a + rest == rest;
      assert a + f[0] == f[0];
      assert [f[0]] + f[1..] == f;
    } else {
      var s := a + rest;
      assert s[1..] == a[1..] + rest;
      SplitOnFenceSkipsPlainPrefix(a[1..], rest);
      if |s| >= 3 {
        assert s[..3] != Fence by { assert s[..3][0] == a[0]; }
        assert [s[0]] + (a[1..] + f[0]) == a + f[0];
      } else {
        assert f == [rest];
      }
    }
  }

  /** A lone fence splits into two empty pieces. */
  lemma SplitOnLoneFence()
    ensures SplitOnFence(Fence) == ["", ""]
  {
    assert Fence[..3] == Fence && Fence[3..] == "";
  }

  /** A body without backticks followed by a fence: the body, then nothing. */
  lemma SplitOnFenceOfClosedBody(body: string)
    requires NoBacktick(body)
    ensures SplitOnFence(body + Fence) == [body, ""]
  {
    SplitOnLoneFence();
    SplitOnFenceSkipsPlainPrefix(body, Fence);
    assert body + "" == body;
  }

  /** A fence opening a closed body adds an empty piece in front. */
  lemma SplitOnFenceOfOpenedBody(body: string)
    requires NoBacktick(body)
    ensures SplitOnFence(Fence + (body + Fence)) == ["", body, ""]
  {
    var closed := body + Fence;
    SplitOnFenceOfClosedBody(body);
    assert (Fence + closed)[..3] == Fence && (Fence + closed)[3..] == closed;
  }

  /** Prose, then one fenced body, then the closing fence: three pieces, the body whole. */
  lemma SplitOnFenceOfFencedBlock(prose: string, body: string)
    requires NoBacktick(prose) && NoBacktick(body)
    ensures SplitOnFence(prose + Fence + body + Fence) == [prose, body, ""]
  {
    var fenced := Fence + (body + Fence);
    assert prose + Fence + body + Fence == prose + fenced;
    assert SplitOnFence(fenced) == ["", body, ""] by {
      SplitOnFenceOfOpenedBody(body);
    }
    assert SplitOnFence(prose + fenced) == [prose, body, ""] by {
      SplitOnFenceSkipsPlainPrefix(prose, fenced);
      assert prose + "" == prose;
    }
  }

  /** `sub in s`. */
  predicate Contains(s: string, sub: string) {
    sub <= s || (s != [] && Contains(s[1..], sub))
  }

  /** `str.lower()` on the ASCII letters. */
  function LowerChar(c: char): char {
    if 'A' <= c <= 'Z' then (c as int + 32) as char else c
  }

  function Lower(s: string): (r: string)
    ensures |r| == |s|
    ensures forall i :: 0 <= i < |s| ==> r[i] == LowerChar(s[i])
  {
    if s == [] then [] else [LowerChar(s[0])] + Lower(s[1..])
  }

  /** `sep.join(parts)`. */
  function Join(sep: string, parts: seq<string>): string {
    if parts == [] then ""
    else if |parts| == 1 then parts[0]
    else parts[0] + sep + Join(sep, parts[1..])
  }

  /** A non-empty join begins with its first part. */
  lemma {:induction false} JoinStartsWithFirst(sep: string, parts: seq<string>)
    requires parts != []
    ensures parts[0] <= Join(sep, parts)
  {
  }

  /** Python's line boundaries for `str.splitlines` (apart from the pair "\r\n"). */
  predicate IsLineBreak(c: char) {
    c in {'\n', '\r', '\U{0B}', '\U{0C}', '\U{1C}', '\U{1D}', '\U{1E}', '\U{85}', '\U{2028}', '\U{2029}'}
  }

  /** `s.splitlines()`: the lines of `s`, without their terminators; a final terminator adds no empty line. */
  function SplitLines(s: string): (lines: seq<string>)
    ensures lines == [] <==> s == ""
  {
    if s == [] then []
    else if s[0] == '\r' && |s| > 1 && s[1] == '\n' then [""] + SplitLines(s[2..])
    else if IsLineBreak(s[0]) then [""] + SplitLines(s[1..])
    else
      var rest := SplitLines(s[1..]);
      if rest == [] then [[s[0]]] else [[s[0]] + rest[0]] + rest[1..]
  }

  /** `s` holds no line boundary. */
  predicate NoLineBreak(s: string) {
    forall i :: 0 <= i < |s| ==> !IsLineBreak(s[i])
  }

  /** Concatenating text without line boundaries gives text without them. */
  lemma NoLineBreakConcat(a: string, b: string)
    requires NoLineBreak(a) && NoLineBreak(b)
    ensures NoLineBreak(a + b)
  {
    assert forall i :: 0 <= i < |a + b| ==> (a + b)[i] == if i < |a| then a[i] else b[i - |a|];
  }

  /** Joining parts without line boundaries with a separator without them gives text without them. */
  lemma {:induction false} JoinHasNoLineBreak(sep: string, parts: seq<string>)
    requires NoLineBreak(sep)
    requires forall i :: 0 <= i < |parts| ==> NoLineBreak(parts[i])
    ensures NoLineBreak(Join(sep, parts))
  {
    if |parts| > 1 {
      JoinHasNoLineBreak(sep, parts[1..]);
      NoLineBreakConcat(parts[0], sep);
      NoLineBreakConcat(parts[0] + sep, Join(sep, parts[1..]));
    }
  }

  /** A line without boundaries followed by "\n" is split off as one line. */
  lemma {:induction false} SplitLinesOfLine(a: string, b: string)
    requires NoLineBreak(a)
    ensures SplitLines(a + "\n" + b) == [a] + SplitLines(b)
  {
    var s := a + "\n" + b;
    if a == [] {
      assert s == "\n" + b;
      assert s[1..] == b;
    } else {
      assert s[1..] == a[1..] + "\n" + b;
      SplitLinesOfLine(a[1..], b);
      assert [s[0]] + a[1..] == a;
    }
  }

  /** A non-empty line without boundaries is one line. */
  lemma {:induction false} SplitLinesOfSingleLine(a: string)
    requires a != [] && NoLineBreak(a)
    ensures SplitLines(a) == [a]
  {
    assert !IsLineBreak(a[0]);
    if |a| == 1 {
      assert SplitLines(a[1..]) == [];
      assert [a[0]] == a;
    } else {
      SplitLinesOfSingleLine(a[1..]);
      assert [a[0]] + a[1..] == a;
    }
  }

  /**
   * Joining lines with "\n" and splitting the result into lines gives them
   * back, when no line holds a boundary and the last one is not empty.
   */
  lemma {:induction false} SplitLinesOfJoin(lines: seq<string>)
    requires lines != [] && lines[|lines| - 1] != []
    requires forall i :: 0 <= i < |lines| ==> NoLineBreak(lines[i])
    ensures SplitLines(Join("\n", lines)) == lines
  {
    if |lines| == 1 {
      SplitLinesOfSingleLine(lines[0]);
    } else {
      SplitLinesOfJoin(lines[1..]);
      SplitLinesOfLine(lines[0], Join("\n", lines[1..]));
      assert [lines[0]] + lines[1..] == lines;
    }
  }

  function DigitChar(d: nat): char
    requires d < 10
  {
    ('0' as int + d) as char
  }

  /** `str(n)` for a natural number: its decimal digits. */
  function NatToString(n: nat): (r: string)
    ensures r != []
    ensures forall i :: 0 <= i < |r| ==> '0' <= r[i] <= '9'
    ensures r[|r| - 1] == DigitChar(n % 10)
    ensures n < 10 <==> |r| == 1
  {
    if n < 10 then [DigitChar(n)] else NatToString(n / 10) + [DigitChar(n % 10)]
  }

  /** Different numbers render differently, so `f"snippet_{n}"` names are distinct. */
  lemma {:induction false} NatToStringInjective(m: nat, n: nat)
    requires NatToString(m) == NatToString(n)
    ensures m == n
  {
    var sm, sn := NatToString(m), NatToString(n);
    assert m % 10 == n % 10 by {
      assert DigitChar(m % 10) == DigitChar(n % 10);
    }
    if m >= 10 && n >= 10 {
      assert m / 10 == n / 10 by {
        assert NatToString(m / 10) == sm[..|sm| - 1];
        assert NatToString(n / 10) == sn[..|sn| - 1];
        NatToStringInjective(m / 10, n / 10);
      }
    }
  }

  /** `str(i)` for any int. */
  function IntToString(i: int): string {
    if i < 0 then "-" + NatToString(-i) else NatToString(i)
  }
}
