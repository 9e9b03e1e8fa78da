/** The string operations the configuration helper relies on: substring test,
    the last `/`-separated segment of an identifier, and the leading-whitespace
    prefix of a line. */
module Text {

  /** A character that Python's `str.isspace` accepts, and so one that `lstrip()` removes. */
  predicate IsSpace(c: char) {
    || c == ' '
    || ('\U{9}' <= c <= '\U{D}')
    || ('\U{1C}' <= c <= '\U{1F}')
    || c == '\U{85}' || c == '\U{A0}' || c == '\U{1680}'
    || ('\U{2000}' <= c <= '\U{200A}')
    || c == '\U{2028}' || c == '\U{2029}' || c == '\U{202F}' || c == '\U{205F}' || c == '\U{3000}'
  }

  /** `pat` occurs in `s` starting at index `i`. */
  ghost predicate OccursAt(s: string, pat: string, i: int) {
    0 <= i <= |s| && pat <= s[i..]
  }

  /** Python's `pat in s` for strings, computed by scanning `s` from the left. */
  predicate Contains(s: string, pat: string)
    decreases |s|
  {
    pat <= s || (s != [] && Contains(s[1..], pat))
  }

  /** The scan agrees with the plain definition: `pat` occurs at some index of `s`. */
  lemma {:induction false} ContainsIffOccurs(s: string, pat: string)
    ensures Contains(s, pat) <==> exists i :: OccursAt(s, pat, i)
    decreases |s|
  {
    assert s[0..] == s;
    if pat <= s {
      assert OccursAt(s, pat, 0);
    } else if s != [] {
      ContainsIffOccurs(s[1..], pat);
      if Contains(s[1..], pat) {
        var i :| OccursAt(s[1..], pat, i);
        assert s[1..][i..] == s[i + 1..];
        assert OccursAt(s, pat, i + 1);
      } else {
        forall i | OccursAt(s, pat, i) ensures false {
          assert s[1..][i - 1..] == s[i..];
          assert OccursAt(s[1..], pat, i - 1);
        }
      }
    }
  }

  /** Python's `s.split('/')[-1]`: what follows the last `/` of `s`, or all of `s`
      when it has no `/`. The contract pins the result down uniquely: a suffix
      of `s` without `/` that is either the whole of `s` or preceded by a `/`. */
  function LastSegment(s: string): (r: string)
    ensures |r| <= |s| && r == s[|s| - |r|..]
    ensures '/' !in r
    ensures r == s || s[|s| - |r| - 1] == '/'
  {
    if s == [] then []
    else if s[|s| - 1] == '/' then []
    else LastSegment(s[..|s| - 1]) + [s[|s| - 1]]
  }

  /** The last segment of `prefix/seg` is `seg` when `seg` has no `/`. */
  lemma {:induction false} LastSegmentAfterSlash(prefix: string, seg: string)
    requires '/' !in seg
    ensures LastSegment(prefix + "/" + seg) == seg
  {
    var s := prefix + "/" + seg;
    if seg != [] {
      var init := seg[..|seg| - 1];
      assert s[..|s| - 1] == prefix + "/" + init;
      assert s[|s| - 1] == seg[|seg| - 1];
      LastSegmentAfterSlash(prefix, init);
      assert seg == init + [seg[|seg| - 1]];
    }
  }

  /** Python's `line[:len(line) - len(line.lstrip())]`: the longest prefix of
      `line` made of whitespace. */
  function Indent(line: string): (r: string)
    ensures r <= line
    ensures forall i :: 0 <= i < |r| ==> IsSpace(r[i])
    ensures |r| < |line| ==> !IsSpace(line[|r|])
  {
    if |line| > 0 && IsSpace(line[0]) then [line[0]] + Indent(line[1..]) else ""
  }

  /** Whitespace followed by a non-whitespace character: the indent is exactly that whitespace. */
  lemma {:induction false} IndentOfIndented(ws: string, rest: string)
    requires forall i :: 0 <= i < |ws| ==> IsSpace(ws[i])
    requires |rest| > 0 && !IsSpace(rest[0])
    ensures Indent(ws + rest) == ws
  {
    if ws != [] {
      assert (ws + rest)[1..] == ws[1..] + rest;
      IndentOfIndented(ws[1..], rest);
    }
  }
}
