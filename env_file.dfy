/** The hand-written `.env` reader the assistant falls back on when python-dotenv is
    missing: each line of the file may assign one variable, `KEY=value`. */
module EnvFile {
  import opened Options
  import opened Strings

  predicate IsDoubleQuote(c: char) { c == '"' }
  predicate IsSingleQuote(c: char) { c == '\'' }

  /** The value as stored: stripped of whitespace, then of surrounding `"`, then of
      surrounding `'` (three successive `strip` calls, in that order). */
  function CleanValue(raw: string): (v: string)
    ensures v == [] || (v[0] != '\'' && v[|v| - 1] != '\'')
  {
    var unquoted := Trim(Strip(raw), IsDoubleQuote);
    TrimLeftSpec(unquoted, IsSingleQuote);
    TrimRightSpec(TrimLeft(unquoted, IsSingleQuote), IsSingleQuote);
    Trim(unquoted, IsSingleQuote)
  }

  /** The characters the three strips of a value can remove. */
  predicate Stripped(c: char) {
    IsSpace(c) || IsDoubleQuote(c) || IsSingleQuote(c)
  }

  /** `inner` is `outer[i..j]`, and every character of `outer` outside `i..j` is one
      the value strips remove. */
  predicate PieceAt(outer: string, inner: string, i: nat, j: nat) {
    i <= j <= |outer| && inner == outer[i..j]
    && (forall k :: 0 <= k < i ==> Stripped(outer[k]))
    && (forall k :: j <= k < |outer| ==> Stripped(outer[k]))
  }

  /** `inner` is a contiguous piece of `outer` with only removable characters around it. */
  ghost predicate InnerPiece(outer: string, inner: string) {
    exists i: nat, j: nat :: PieceAt(outer, inner, i, j)
  }

  /** Stripping characters that are all among those removed leaves an inner piece. */
  lemma TrimPiece(s: string, p: char -> bool)
    requires forall c :: p(c) ==> Stripped(c)
    ensures InnerPiece(s, Trim(s, p))
  {
    var left := TrimLeft(s, p);
    TrimLeftSpec(s, p);
    TrimRightSpec(left, p);
    var r := Trim(s, p);
    var i := |s| - |left|;
    var j := i + |r|;
    assert r == s[i..j];
    assert PieceAt(s, r, i, j) by {
      forall k | j <= k < |s|
        ensures Stripped(s[k])
      {
        assert s[k] == left[k - i];
      }
    }
  }

  /** An inner piece of an inner piece is an inner piece. */
  lemma PieceOfPiece(a: string, b: string, c: string)
    requires InnerPiece(a, b) && InnerPiece(b, c)
    ensures InnerPiece(a, c)
  {
    var i1: nat, j1: nat :| PieceAt(a, b, i1, j1);
    var i2: nat, j2: nat :| PieceAt(b, c, i2, j2);
    PieceAtPiece(a, b, c, i1, j1, i2, j2);
  }

  /** The same, with the positions given. */
  lemma PieceAtPiece(a: string, b: string, c: string, i1: nat, j1: nat, i2: nat, j2: nat)
    requires PieceAt(a, b, i1, j1) && PieceAt(b, c, i2, j2)
    ensures PieceAt(a, c, i1 + i2, i1 + j2)
  {
    assert c == a[i1 + i2..i1 + j2] by {
      forall k | 0 <= k < |c|
        ensures c[k] == a[i1 + i2 + k]
      {
        assert c[k] == b[i2 + k];
      }
    }
    forall k | 0 <= k < i1 + i2
      ensures Stripped(a[k])
    {
      if k >= i1 {
        assert a[k] == b[k - i1];
      }
    }
    forall k | i1 + j2 <= k < |a|
      ensures Stripped(a[k])
    {
      if k < j1 {
        assert a[k] == b[k - i1];
      }
    }
  }

  /** The stored value is a contiguous piece of the raw text, and every character
      dropped from either end is whitespace, `"` or `'`. */
  lemma {:induction false} CleanValueIsPiece(raw: string)
    ensures InnerPiece(raw, CleanValue(raw))
  {
    var spaced := Strip(raw);
    var unquoted := Trim(spaced, IsDoubleQuote);
    TrimPiece(raw, IsSpace);
    TrimPiece(spaced, IsDoubleQuote);
    TrimPiece(unquoted, IsSingleQuote);
    PieceOfPiece(raw, spaced, unquoted);
    PieceOfPiece(raw, unquoted, CleanValue(raw));
  }

  /** The filter of the loop: the line is not blank, is not a comment (first
      non-blank character `#`) and holds an `=`. */
  predicate IsAssignment(line: string) {
    Strip(line) != [] && Strip(line)[0] != '#' && '=' in line
  }

  /** One line of the file: blank lines, comment lines (first non-blank character `#`)
      and lines without `=` assign nothing; any other line assigns the stripped text
      before its first `=` the cleaned text after it. */
  function ParseLine(line: string): (r: Option<(string, string)>)
    ensures r.Some? <==> IsAssignment(line)
    ensures r.Some? ==> '=' !in r.value.0 && Strip(r.value.0) == r.value.0
  {
    if IsAssignment(line) then
      var t := Strip(line);
      TrimKeeps(line, IsSpace, '=');
      var parts := SplitOnce(t, '=');
      StripIdempotent(parts.0);
      TrimKeeps(parts.0, IsSpace, '=');
      Some((Strip(parts.0), CleanValue(parts.1)))
    else
      None
  }

  /** The key is the stripped text before the FIRST `=`; later `=` belong to the value. */
  lemma SplitsAtFirstEquals(line: string, before: string, after: string)
    requires Strip(line) != [] && Strip(line)[0] != '#'
    requires Strip(line) == before + "=" + after && '=' !in before
    ensures ParseLine(line) == Some((Strip(before), CleanValue(after)))
  {
    assert Strip(line)[|before|] == '=';
    TrimKeeps(line, IsSpace, '=');
    SplitOnceUnique(Strip(line), '=', before, after);
  }

  /** The assignments of the lines, in file order. */
  function Parsed(lines: seq<string>): seq<Option<(string, string)>> {
    seq(|lines|, j requires 0 <= j < |lines| => ParseLine(lines[j]))
  }

  /** One assignment applied to the variables read so far; a later one overrides. */
  function Assign(env: map<string, string>, a: Option<(string, string)>): map<string, string> {
    match a
    case Some(kv) => env[kv.0 := kv.1]
    case None => env
  }

  /** Applies a list of assignments in order, starting from no variables. */
  function Collect(assigns: seq<Option<(string, string)>>): map<string, string> {
    if assigns == [] then map[]
    else Assign(Collect(assigns[..|assigns| - 1]), assigns[|assigns| - 1])
  }

  /** The variables of a file, read line by line. */
  function ParseEnv(lines: seq<string>): map<string, string> {
    Collect(Parsed(lines))
  }

  /** The loop of `load_env_variables` over the lines of the file. */
  method LoadEnvLines(lines: seq<string>) returns (env: map<string, string>)
    ensures env == ParseEnv(lines)
  {
    env := map[];
    for i := 0 to |lines|
      invariant env == Collect(Parsed(lines[..i]))
    {
      var assign := ParseLine(lines[i]);
      CollectStep(lines, i);
      match assign {
        case Some(kv) => env := env[kv.0 := kv.1];
        case None =>
      }
    }
    assert lines[..|lines|] == lines;
  }

  /** Reading one more line applies its assignment to what was read before. */
  lemma CollectStep(lines: seq<string>, i: nat)
    requires i < |lines|
    ensures Collect(Parsed(lines[..i + 1])) == Assign(Collect(Parsed(lines[..i])), ParseLine(lines[i]))
  {
    ParsedStep(lines, i);
    var before := Parsed(lines[..i]);
    assert (before + [ParseLine(lines[i])])[..|before|] == before;
  }

  /** Reading one more line adds its assignment at the end. */
  lemma ParsedStep(lines: seq<string>, i: nat)
    requires i < |lines|
    ensures Parsed(lines[..i + 1]) == Parsed(lines[..i]) + [ParseLine(lines[i])]
  {
    assert Parsed(lines[..i + 1])[..i] == Parsed(lines[..i]);
  }

  /** The assignment `a` sets `key`. */
  predicate Sets(a: Option<(string, string)>, key: string) {
    a.Some? && a.value.0 == key
  }

  /** A key is defined exactly when some assignment sets it. */
  lemma {:induction false} CollectKeys(assigns: seq<Option<(string, string)>>, key: string)
    ensures key in Collect(assigns) <==> exists j :: 0 <= j < |assigns| && Sets(assigns[j], key)
  {
    if assigns != [] {
      var init := assigns[..|assigns| - 1];
      CollectKeys(init, key);
      if key in Collect(init) {
        var j :| 0 <= j < |init| && Sets(init[j], key);
        assert assigns[j] == init[j];
      }
      if exists j :: 0 <= j < |assigns| && Sets(assigns[j], key) {
        var j :| 0 <= j < |assigns| && Sets(assigns[j], key);
        if j < |init| {
          assert Sets(init[j], key);
        }
      }
    }
  }

  /** The last assignment that sets a key decides its value. */
  lemma {:induction false} CollectLastWins(assigns: seq<Option<(string, string)>>, i: nat, key: string, value: string)
    requires i < |assigns| && assigns[i] == Some((key, value))
    requires forall j :: i < j < |assigns| ==> !Sets(assigns[j], key)
    ensures key in Collect(assigns) && Collect(assigns)[key] == value
  {
    var init := assigns[..|assigns| - 1];
    if i < |assigns| - 1 {
      assert !Sets(assigns[|assigns| - 1], key);
      CollectLastWins(init, i, key, value);
    }
  }

  /** A key is defined exactly when some line of the file assigns it. */
  lemma KeysComeFromLines(lines: seq<string>, key: string)
    ensures key in ParseEnv(lines) <==> exists j :: 0 <= j < |lines| && Sets(ParseLine(lines[j]), key)
  {
    CollectKeys(Parsed(lines), key);
    assert forall j :: 0 <= j < |lines| ==> Parsed(lines)[j] == ParseLine(lines[j]);
  }

  /** The last line that assigns a key decides its value. */
  lemma LastAssignmentWins(lines: seq<string>, i: nat, key: string, value: string)
    requires i < |lines| && ParseLine(lines[i]) == Some((key, value))
    requires forall j :: i < j < |lines| ==> !Sets(ParseLine(lines[j]), key)
    ensures key in ParseEnv(lines) && ParseEnv(lines)[key] == value
  {
    CollectLastWins(Parsed(lines), i, key, value);
  }
}
