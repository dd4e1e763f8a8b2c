/** Optional values, for lookups and for replies that may be absent (Python's None). */
module Options {
  datatype Option<+T> = None | Some(value: T)
}

/** The few Python string operations the assistant relies on, over Unicode text. */
module Strings {

  /** Python's `str.isspace()` for one character: the ASCII controls TAB..CR and
      FS..US, the space, NEL, NO-BREAK SPACE and the Unicode space separators. */
  predicate IsSpace(c: char) {
    || c == ' '
    || ('\t' <= c <= '\r')
    || ('\U{1C}' <= c <= '\U{1F}')
    || c == '\U{85}'
    || c == '\U{A0}'
    || c == '\U{1680}'
    || ('\U{2000}' <= c <= '\U{200A}')
    || c == '\U{2028}'
    || c == '\U{2029}'
    || c == '\U{202F}'
    || c == '\U{205F}'
    || c == '\U{3000}'
  }

  /** Drops every leading character that satisfies `p` (the left half of Python's `strip`). */
  function TrimLeft(s: string, p: char -> bool): string
    decreases |s|
  {
    if s != [] && p(s[0]) then TrimLeft(s[1..], p) else s
  }

  /** Drops every trailing character that satisfies `p`. */
  function TrimRight(s: string, p: char -> bool): string
    decreases |s|
  {
    if s != [] && p(s[|s| - 1]) then TrimRight(s[..|s| - 1], p) else s
  }

  /** Python's `s.strip(chars)`: both ends, for the character class `p`. */
  function Trim(s: string, p: char -> bool): string {
    TrimRight(TrimLeft(s, p), p)
  }

  /** Python's `s.strip()` with no argument. */
  function Strip(s: string): string {
    Trim(s, IsSpace)
  }

  /** TrimLeft keeps a suffix of `s` that does not start with a `p` character,
      and every character it drops is a `p` character. */
  lemma {:induction false} TrimLeftSpec(s: string, p: char -> bool)
    ensures var r := TrimLeft(s, p);
      && |r| <= |s| && r == s[|s| - |r|..]
      && (r == [] || !p(r[0]))
      && forall i :: 0 <= i < |s| - |r| ==> p(s[i])
    decreases |s|
  {
    if s != [] && p(s[0]) {
      TrimLeftSpec(s[1..], p);
    }
  }

  /** TrimRight keeps a prefix of `s` that does not end with a `p` character,
      and every character it drops is a `p` character. */
  lemma {:induction false} TrimRightSpec(s: string, p: char -> bool)
    ensures var r := TrimRight(s, p);
      && |r| <= |s| && r == s[..|r|]
      && (r == [] || !p(r[|r| - 1]))
      && forall i :: |r| <= i < |s| ==> p(s[i])
    decreases |s|
  {
    if s != [] && p(s[|s| - 1]) {
      TrimRightSpec(s[..|s| - 1], p);
    }
  }

  /** Trimming removes characters only from the two ends: what is left is a
      contiguous piece of `s`, and a character that the trimming cannot remove
      survives it. */
  lemma TrimKeeps(s: string, p: char -> bool, c: char)
    ensures forall d :: d in Trim(s, p) ==> d in s
    ensures c in s && !p(c) ==> c in Trim(s, p)
  {
    var l := TrimLeft(s, p);
    TrimLeftSpec(s, p);
    TrimRightSpec(l, p);
    var r := TrimRight(l, p);
    assert forall d :: d in r ==> d in l;
    if c in s && !p(c) {
      var i :| 0 <= i < |s| && s[i] == c;
      var j := i - (|s| - |l|);
      assert 0 <= j < |l| && l[j] == c;
      assert j < |r| && r[j] == c;
    }
  }

  /** Stripping leaves no space at either end, so a second strip changes nothing. */
  lemma StripIdempotent(s: string)
    ensures Strip(Strip(s)) == Strip(s)
  {
    var l := TrimLeft(s, IsSpace);
    var t := TrimRight(l, IsSpace);
    TrimLeftSpec(s, IsSpace);
    TrimRightSpec(l, IsSpace);
    TrimLeftSpec(t, IsSpace);
    if t != [] {
      assert t[0] == l[0];
    }
    assert TrimLeft(t, IsSpace) == t;
    TrimRightSpec(t, IsSpace);
    assert TrimRight(t, IsSpace) == t;
  }

  /** One character of Python's `str.lower()`, as far as it can produce ASCII text:
      A..Z and KELVIN SIGN (U+212A, lower-cased to 'k'). Every other character's
      lower-case form in Python is itself or contains a non-ASCII character. */
  function LowerChar(c: char): char {
    if 'A' <= c <= 'Z' then (c as int + 32) as char
    else if c == '\U{212A}' then 'k'
    else c
  }

  /** `str.lower()` character by character (see LowerChar for its reach). */
  function Lower(s: string): string {
    seq(|s|, i requires 0 <= i < |s| => LowerChar(s[i]))
  }

  /** Python's `part in s` for strings: `part` occurs as a contiguous piece of `s`. */
  predicate Contains(s: string, part: string)
    decreases |s|
  {
    |part| <= |s| && (s[..|part|] == part || Contains(s[1..], part))
  }

  /** `part` starts at position `i` of `s`. */
  predicate OccursAt(s: string, part: string, i: int) {
    0 <= i <= |s| - |part| && s[i..i + |part|] == part
  }

  /** Contains holds exactly when some position of `s` starts a copy of `part`. */
  lemma {:induction false} ContainsIffOccurs(s: string, part: string)
    ensures Contains(s, part) <==> exists i :: OccursAt(s, part, i)
    decreases |s|
  {
    if |part| <= |s| && s[..|part|] != part {
      ContainsIffOccurs(s[1..], part);
      if exists i :: OccursAt(s, part, i) {
        var i :| OccursAt(s, part, i);
        assert i != 0;
        assert s[1..][i - 1..i - 1 + |part|] == part;
        assert OccursAt(s[1..], part, i - 1);
      }
      if Contains(s[1..], part) {
        var i :| OccursAt(s[1..], part, i);
        assert s[i + 1..i + 1 + |part|] == part;
        assert OccursAt(s, part, i + 1);
      }
    } else if |part| <= |s| {
      assert OccursAt(s, part, 0);
    }
  }

  /** Python's `s.split(sep, 1)` when `sep` occurs in `s`: the text before the
      first `sep` and the text after it. */
  function SplitOnce(s: string, sep: char): (r: (string, string))
    requires sep in s
    ensures s == r.0 + [sep] + r.1 && sep !in r.0
  {
    if s[0] == sep then ([], s[1..])
    else
      var rest := SplitOnce(s[1..], sep);
      ([s[0]] + rest.0, rest.1)
  }

  /** There is only one way to cut `s` at the first `sep`. */
  lemma {:induction false} SplitOnceUnique(s: string, sep: char, before: string, after: string)
    requires s == before + [sep] + after && sep !in before
    ensures SplitOnce(s, sep) == (before, after)
  {
    if before != [] {
      assert s[0] == before[0] && before[0] in before;
      assert s[1..] == before[1..] + [sep] + after;
      SplitOnceUnique(s[1..], sep, before[1..], after);
      assert [before[0]] + before[1..] == before;
    }
  }
}
