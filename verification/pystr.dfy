/** The two Python string operations the extractor relies on: `str.strip()` and `str.lower()`. */
module PyStr {

  /** Python's `str.isspace()` for a single code point: the characters that
      `str.strip()` with no argument removes. */
  predicate IsSpace(c: char)
  {
    || ('\t' <= c <= '\r')
    || ('\U{1C}' <= c <= '\U{1F}')
    || c == ' '
    || c == '\U{85}'
    || c == '\U{A0}'
    || c == '\U{1680}'
    || ('\U{2000}' <= c <= '\U{200A}')
    || c == '\U{2028}'
    || c == '\U{2029}'
    || c == '\U{202F}'
    || c == '\U{205F}'
    || c == '\U{3000}'
  }

  ghost predicate AllSpace(s: string)
  {
    forall i :: 0 <= i < |s| ==> IsSpace(s[i])
  }

  /** The number of whitespace characters at the front of `s`. */
  function LeadingSpace(s: string): (k: nat)
    ensures k <= |s|
    ensures AllSpace(s[..k])
    ensures k < |s| ==> !IsSpace(s[k])
  {
    if |s| == 0 || !IsSpace(s[0]) then 0
    else
      var k' := LeadingSpace(s[1..]);
      assert s[..1 + k'] == [s[0]] + s[1..][..k'];
      1 + k'
  }

  /** The number of whitespace characters at the back of `s`. */
  function TrailingSpace(s: string): (k: nat)
    ensures k <= |s|
    ensures AllSpace(s[|s| - k..])
    ensures k < |s| ==> !IsSpace(s[|s| - k - 1])
  {
    if |s| == 0 || !IsSpace(s[|s| - 1]) then 0
    else
      var init := s[..|s| - 1];
      var k' := TrailingSpace(init);
      assert s[|s| - (1 + k')..] == init[|init| - k'..] + [s[|s| - 1]];
      1 + k'
  }

  /** `t` is what remains of `s` once whitespace is removed from both ends:
      `s` is `t` between two all-whitespace runs, and `t` neither starts nor
      ends with whitespace. */
  ghost predicate IsStripOf(s: string, t: string)
  {
    && |t| <= |s|
    && (|t| == 0 || (!IsSpace(t[0]) && !IsSpace(t[|t| - 1])))
    && exists i :: 0 <= i <= |s| - |t| && s[i..i + |t|] == t && AllSpace(s[..i]) && AllSpace(s[i + |t|..])
  }

  /** Python's `s.strip()`: the whitespace runs at both ends removed. */
  function Strip(s: string): string
  {
    var a := LeadingSpace(s);
    if a == |s| then ""
    else
      var b := TrailingSpace(s);
      assert b < |s| - a;
      s[a..|s| - b]
  }

  /** `Strip` removes whitespace from both ends and nothing else. */
  lemma StripIsStripOf(s: string)
    ensures IsStripOf(s, Strip(s))
  {
    var a := LeadingSpace(s);
    if a == |s| {
      assert s[..0] == [] && s[0..0] == [];
      assert AllSpace(s[0..]) by { assert s[..a] == s[0..]; }
    } else {
      var b := TrailingSpace(s);
      var t := s[a..|s| - b];
      assert Strip(s) == t;
      assert s[a..a + |t|] == t;
      assert t[0] == s[a] && t[|t| - 1] == s[|s| - b - 1];
    }
  }

  /** Two all-whitespace pieces make an all-whitespace string. */
  lemma AllSpaceSplit(s: string, i: int)
    requires 0 <= i <= |s| && AllSpace(s[..i]) && AllSpace(s[i..])
    ensures AllSpace(s)
  {
    forall j | 0 <= j < |s| ensures IsSpace(s[j]) {
      if j < i { assert s[..i][j] == s[j]; } else { assert s[i..][j - i] == s[j]; }
    }
  }

  /** A whitespace run of length `i` followed by a non-space (or the end) is
      exactly what `LeadingSpace` measures. */
  lemma {:induction false} LeadingSpaceIs(s: string, i: nat)
    requires i <= |s| && AllSpace(s[..i])
    requires i < |s| ==> !IsSpace(s[i])
    ensures LeadingSpace(s) == i
  {
    if i > 0 {
      assert IsSpace(s[..i][0]);
      assert s[1..][..i - 1] == s[..i][1..];
      LeadingSpaceIs(s[1..], i - 1);
    }
  }

  /** The mirror image of `LeadingSpaceIs` for the back of the string. */
  lemma {:induction false} TrailingSpaceIs(s: string, i: nat)
    requires i <= |s| && AllSpace(s[|s| - i..])
    requires i < |s| ==> !IsSpace(s[|s| - i - 1])
    ensures TrailingSpace(s) == i
  {
    if i > 0 {
      assert IsSpace(s[|s| - i..][i - 1]);
      var init := s[..|s| - 1];
      assert init[|init| - (i - 1)..] == s[|s| - i..|s| - 1] == s[|s| - i..][..i - 1];
      TrailingSpaceIs(init, i - 1);
    }
  }

  /** An all-whitespace string strips to nothing. */
  lemma StripBlank(s: string)
    requires AllSpace(s)
    ensures Strip(s) == ""
  {
    assert s[..|s|] == s;
    LeadingSpaceIs(s, |s|);
  }

  /** Whitespace runs around a slice that starts and ends with a non-space
      are exactly what `Strip` removes. */
  lemma StripCore(s: string, i: int, j: int)
    requires 0 <= i < j <= |s| && AllSpace(s[..i]) && AllSpace(s[j..])
    requires !IsSpace(s[i]) && !IsSpace(s[j - 1])
    ensures Strip(s) == s[i..j]
  {
    LeadingSpaceIs(s, i);
    assert s[|s| - (|s| - j)..] == s[j..];
    TrailingSpaceIs(s, |s| - j);
    assert LeadingSpace(s) == i && TrailingSpace(s) == |s| - j;
  }

  /** `IsStripOf` pins the stripped string down uniquely: whatever slice of
      `s` meets it is exactly what `Strip` returns. */
  lemma StripUnique(s: string, t: string)
    requires IsStripOf(s, t)
    ensures Strip(s) == t
  {
    var i :| 0 <= i <= |s| - |t| && s[i..i + |t|] == t && AllSpace(s[..i]) && AllSpace(s[i + |t|..]);
    if |t| == 0 {
      AllSpaceSplit(s, i);
      StripBlank(s);
    } else {
      assert s[i] == s[i..i + |t|][0] == t[0];
      assert s[i + |t| - 1] == s[i..i + |t|][|t| - 1] == t[|t| - 1];
      assert AllSpace(s[..i]) && AllSpace(s[i + |t|..]);
      StripCore(s, i, i + |t|);
    }
  }

  /** ASCII lower-casing of one character. */
  function LowerChar(c: char): char
  {
    if 'A' <= c <= 'Z' then (c as int + 32) as char else c
  }

  /** `s.lower()`, restricted to the ASCII letters. */
  function Lower(s: string): (r: string)
    ensures |r| == |s|
    ensures forall i :: 0 <= i < |s| ==> r[i] == LowerChar(s[i])
  {
    if s == [] then [] else [LowerChar(s[0])] + Lower(s[1..])
  }
}
