/** The few operations on Python `str` values that the handler relies on,
    with CPython's semantics, over `string` (a sequence of characters). */
module PyStr {

  /** `pat` occurs in `s` starting at index `i`. */
  predicate OccursAt(s: string, pat: string, i: int) {
    0 <= i && i + |pat| <= |s| && s[i..i + |pat|] == pat
  }

  /** `pat in s` for a string needle. */
  predicate Contains(s: string, pat: string) {
    exists i | 0 <= i <= |s| - |pat| :: OccursAt(s, pat, i)
  }

  /** Every character of `s` is `c`. */
  predicate OnlyChar(s: string, c: char) {
    forall k :: 0 <= k < |s| ==> s[k] == c
  }

  /** `s.find(c)`: the index of the first `c` in `s`, or -1 when there is none. */
  function Find(s: string, c: char): (r: int)
    ensures -1 <= r < |s|
    ensures 0 <= r ==> s[r] == c
    ensures forall j :: 0 <= j < |s| && (r == -1 || j < r) ==> s[j] != c
  {
    FindFrom(s, c, 0)
  }

  /** The index of the first `c` in `s` at or after `i`, or -1 when there is none. */
  function FindFrom(s: string, c: char, i: nat): (r: int)
    requires i <= |s|
    ensures r == -1 || i <= r < |s|
    ensures 0 <= r ==> s[r] == c
    ensures forall j :: i <= j < |s| && (r == -1 || j < r) ==> s[j] != c
    decreases |s| - i
  {
    if i == |s| then -1
    else if s[i] == c then i
    else FindFrom(s, c, i + 1)
  }

  /** `s.rfind(c)`: the index of the last `c` in `s`, or -1 when there is none. */
  function RFind(s: string, c: char): (r: int)
    ensures -1 <= r < |s|
    ensures 0 <= r ==> s[r] == c
    ensures forall j :: r < j < |s| ==> s[j] != c
  {
    LastBefore(s, c, |s|)
  }

  /** The index of the last `c` in `s` before index `n`, or -1 when there is none. */
  function LastBefore(s: string, c: char, n: nat): (r: int)
    requires n <= |s|
    ensures -1 <= r < n
    ensures 0 <= r ==> s[r] == c
    ensures forall j :: r < j < n ==> s[j] != c
  {
    if n == 0 then -1
    else if s[n - 1] == c then n - 1
    else LastBefore(s, c, n - 1)
  }

  /** `s.split(sep, 1)`: one part when `sep` does not occur, otherwise the text
      before the first `sep` and everything after it. */
  function SplitOnce(s: string, sep: char): (parts: seq<string>)
    ensures 1 <= |parts| <= 2
    ensures |parts| == 1 <==> sep !in s
    ensures |parts| == 1 ==> parts[0] == s
    ensures |parts| == 2 ==> sep !in parts[0] && s == parts[0] + [sep] + parts[1]
  {
    var i := Find(s, sep);
    if i == -1 then [s]
    else
      assert s == s[..i] + [sep] + s[i + 1..];
      [s[..i], s[i + 1..]]
  }

  /** `s.replace(target, replacement)`: scanning from the left, every
      non-overlapping occurrence of `target` is replaced, and the text a
      replacement produces is not scanned again. (CPython also accepts an
      empty `target`; that case is not needed here.) */
  function Replace(s: string, target: string, replacement: string): (r: string)
    requires target != []
    ensures |replacement| <= |target| ==> |r| <= |s|
    ensures target[0] !in s ==> r == s
    decreases |s|
  {
    if |s| < |target| then s
    else if s[..|target|] == target then replacement + Replace(s[|target|..], target, replacement)
    else [s[0]] + Replace(s[1..], target, replacement)
  }

  /** Replacing a target that does not occur changes nothing. */
  lemma {:induction false} ReplaceAbsent(s: string, target: string, replacement: string)
    requires target != [] && !Contains(s, target)
    ensures Replace(s, target, replacement) == s
    decreases |s|
  {
    if |s| >= |target| {
      assert !OccursAt(s, target, 0);
      if Contains(s[1..], target) {
        var i :| 0 <= i <= |s| - 1 - |target| && OccursAt(s[1..], target, i);
        assert s[i + 1..i + 1 + |target|] == s[1..][i..i + |target|];
        assert OccursAt(s, target, i + 1);
        assert false;
      }
      ReplaceAbsent(s[1..], target, replacement);
    }
  }

  /** A leading occurrence of the target is replaced and scanning resumes right after it. */
  lemma ReplaceLeading(target: string, rest: string, replacement: string)
    requires target != []
    ensures Replace(target + rest, target, replacement) == replacement + Replace(rest, target, replacement)
  {
    var s := target + rest;
    assert s[..|target|] == target;
    assert s[|target|..] == rest;
  }

  /** Text in which no occurrence of the target starts passes through
      unchanged, whatever follows it. */
  lemma {:induction false} ReplaceKeepsPrefix(x: string, y: string, target: string, replacement: string)
    requires target != []
    requires forall i :: 0 <= i < |x| ==> !OccursAt(x + y, target, i)
    ensures Replace(x + y, target, replacement) == x + Replace(y, target, replacement)
    decreases |x|
  {
    if x == [] {
      assert x + y == y;
    } else {
      var s := x + y;
      if |s| < |target| {
        assert Replace(y, target, replacement) == y;
      } else {
        assert !OccursAt(s, target, 0);
        assert s[1..] == x[1..] + y;
        forall i | 0 <= i < |x| - 1
          ensures !OccursAt(x[1..] + y, target, i)
        {
          assert !OccursAt(s, target, i + 1);
          if i + |target| <= |s| - 1 {
            assert s[i + 1..i + 1 + |target|] == (x[1..] + y)[i..i + |target|];
          }
        }
        ReplaceKeepsPrefix(x[1..], y, target, replacement);
        assert x == [x[0]] + x[1..];
      }
    }
  }

  /** Text that holds no copy of the target's first character passes through unchanged. */
  lemma ReplaceSkips(x: string, y: string, target: string, replacement: string)
    requires target != [] && target[0] !in x
    ensures Replace(x + y, target, replacement) == x + Replace(y, target, replacement)
  {
    forall i | 0 <= i < |x|
      ensures !OccursAt(x + y, target, i)
    {
      assert (x + y)[i] == x[i] != target[0];
    }
    ReplaceKeepsPrefix(x, y, target, replacement);
  }

  /** `s.lstrip(c)`: `s` without its leading run of `c`. */
  function LStrip(s: string, c: char): (r: string)
    ensures |r| <= |s|
    ensures r == [] || r[0] != c
  {
    if s != [] && s[0] == c then LStrip(s[1..], c) else s
  }

  /** `s.rstrip(c)`: `s` without its trailing run of `c`. */
  function RStrip(s: string, c: char): (r: string)
    ensures |r| <= |s|
    ensures r == [] || r[|r| - 1] != c
  {
    if s != [] && s[|s| - 1] == c then RStrip(s[..|s| - 1], c) else s
  }

  /** `s.strip(c)`: `s` without the runs of `c` at both ends. */
  function Strip(s: string, c: char): (r: string)
    ensures |r| <= |s|
    ensures r == [] || (r[0] != c && r[|r| - 1] != c)
  {
    var left := LStrip(s, c);
    var r := RStrip(left, c);
    RStripSpec(left, c);
    assert r != [] ==> r[0] == left[0];
    r
  }

  /** `lstrip` removes a run of `c` from the front and stops at the first other character. */
  lemma {:induction false} LStripSpec(s: string, c: char)
    ensures var r := LStrip(s, c);
      |r| <= |s| && r == s[|s| - |r|..] && OnlyChar(s[..|s| - |r|], c) && (r == [] || r[0] != c)
    decreases |s|
  {
    if s != [] && s[0] == c {
      LStripSpec(s[1..], c);
      var r := LStrip(s[1..], c);
      assert s[..|s| - |r|] == [c] + s[1..][..|s| - 1 - |r|];
    }
  }

  /** `rstrip` removes a run of `c` from the back and stops at the last other character. */
  lemma {:induction false} RStripSpec(s: string, c: char)
    ensures var r := RStrip(s, c);
      |r| <= |s| && r == s[..|r|] && OnlyChar(s[|r|..], c) && (r == [] || r[|r| - 1] != c)
    decreases |s|
  {
    if s != [] && s[|s| - 1] == c {
      RStripSpec(s[..|s| - 1], c);
      var r := RStrip(s[..|s| - 1], c);
      assert s[|r|..] == s[..|s| - 1][|r|..] + [c];
    }
  }

  /** `strip` leaves the part of `s` between its runs of `c` at both ends:
      a slice of `s` that neither starts nor ends with `c`, with only `c`
      around it. */
  lemma StripSpec(s: string, c: char)
    ensures var r := Strip(s, c);
      (r == [] || (r[0] != c && r[|r| - 1] != c))
      && exists i :: OccursAt(s, r, i) && OnlyChar(s[..i], c) && OnlyChar(s[i + |r|..], c)
  {
    var left := LStrip(s, c);
    var r := RStrip(left, c);
    LStripSpec(s, c);
    RStripSpec(left, c);
    var i := |s| - |left|;
    assert s[i..i + |r|] == r;
    assert s[i + |r|..] == left[|r|..];
    assert OccursAt(s, r, i);
  }
}
