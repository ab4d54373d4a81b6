/**
 * The JavaScript string primitives the report pipeline relies on: the
 * whitespace set of `trim`/`\s`, `trim`, `trimEnd`, `endsWith`, `includes`,
 * `indexOf`, and `split` on a one-character separator.
 */
module Text {
  import opened Optional

  /** JavaScript's WhiteSpace and LineTerminator characters: what `trim()` strips and `\s` matches. */
  predicate IsSpace(c: char) {
    || c == '\t' || c == '\n' || c == '\U{000B}' || c == '\U{000C}' || c == '\r' || c == ' '
    || c == '\U{00A0}' || c == '\U{1680}' || ('\U{2000}' <= c <= '\U{200A}')
    || c == '\U{2028}' || c == '\U{2029}' || c == '\U{202F}' || c == '\U{205F}'
    || c == '\U{3000}' || c == '\U{FEFF}'
  }

  /** `s.trimStart()`. */
  function TrimStart(s: string): string
    decreases |s|
  {
    if s != [] && IsSpace(s[0]) then TrimStart(s[1..]) else s
  }

  /** `s.trimEnd()`. */
  function TrimEnd(s: string): string
    decreases |s|
  {
    if s != [] && IsSpace(s[|s| - 1]) then TrimEnd(s[..|s| - 1]) else s
  }

  /** `s.trim()`. */
  function Trim(s: string): string {
    TrimStart(TrimEnd(s))
  }

  /** `trimStart` drops the leading whitespace and nothing else. */
  lemma {:induction false} TrimStartSpec(s: string)
    ensures var r := TrimStart(s);
      && |r| <= |s| && r == s[|s| - |r|..]
      && (forall i :: 0 <= i < |s| - |r| ==> IsSpace(s[i]))
      && (r != [] ==> !IsSpace(r[0]))
    decreases |s|
  {
    if s != [] && IsSpace(s[0]) {
      TrimStartSpec(s[1..]);
    }
  }

  /** `trimEnd` drops the trailing whitespace and nothing else. */
  lemma {:induction false} TrimEndSpec(s: string)
    ensures var r := TrimEnd(s);
      && |r| <= |s| && r == s[..|r|]
      && (forall i :: |r| <= i < |s| ==> IsSpace(s[i]))
      && (r != [] ==> !IsSpace(r[|r| - 1]))
    decreases |s|
  {
    if s != [] && IsSpace(s[|s| - 1]) {
      TrimEndSpec(s[..|s| - 1]);
    }
  }

  /** Text that neither starts nor ends with whitespace is its own trim. */
  lemma TrimmedIsFixed(s: string)
    requires s != [] ==> !IsSpace(s[0]) && !IsSpace(s[|s| - 1])
    ensures TrimEnd(s) == s && Trim(s) == s
  {
  }

  predicate StartsWith(s: string, prefix: string) {
    |prefix| <= |s| && s[..|prefix|] == prefix
  }

  /** `s.endsWith(suffix)`. */
  predicate EndsWith(s: string, suffix: string) {
    |suffix| <= |s| && s[|s| - |suffix|..] == suffix
  }

  /** `pattern` occurs in `s` starting at index `i`. */
  predicate OccursAt(s: string, pattern: string, i: nat) {
    i + |pattern| <= |s| && s[i..i + |pattern|] == pattern
  }

  /** `s.indexOf(pattern)`, with `None` for -1: the leftmost occurrence. */
  function IndexOf(s: string, pattern: string): (r: Option<nat>)
    ensures r.Some? ==> OccursAt(s, pattern, r.value)
    ensures r.Some? ==> forall j :: 0 <= j < r.value ==> !OccursAt(s, pattern, j)
    ensures r.None? ==> forall j :: 0 <= j <= |s| ==> !OccursAt(s, pattern, j)
    decreases |s|
  {
    if StartsWith(s, pattern) then Some(0)
    else if s == [] then None
    else
      match IndexOf(s[1..], pattern)
      case None =>
        assert forall j :: 1 <= j <= |s| ==> (OccursAt(s, pattern, j) <==> OccursAt(s[1..], pattern, j - 1));
        None
      case Some(i) =>
        assert forall j :: 1 <= j <= |s| ==> (OccursAt(s, pattern, j) <==> OccursAt(s[1..], pattern, j - 1));
        Some(i + 1)
  }

  /** An occurrence inside an occurrence is an occurrence in the outer text. */
  lemma OccursWithin(s: string, t: string, a: nat, pattern: string, j: nat)
    requires OccursAt(s, t, a) && OccursAt(t, pattern, j)
    ensures OccursAt(s, pattern, a + j)
  {
    forall k | 0 <= k < |pattern| ensures s[a + j + k] == pattern[k] {
      assert pattern[k] == t[j..j + |pattern|][k] == t[j + k];
      assert t[j + k] == s[a..a + |t|][j + k];
    }
  }

  /** A one-character pattern occurs exactly where that character stands. */
  lemma CharOccurs(s: string, c: char)
    ensures forall i: nat :: OccursAt(s, [c], i) <==> i < |s| && s[i] == c
  {
    forall i: nat | i < |s| ensures OccursAt(s, [c], i) <==> s[i] == c {
      assert s[i..i + 1] == [s[i]];
    }
  }

  /** `s.includes(pattern)`. */
  predicate Contains(s: string, pattern: string) {
    IndexOf(s, pattern).Some?
  }

  /**
   * `s.includes(pattern)` read directly: the pattern starts here or further
   * on. It agrees with `Contains` (`OccursIffContains`) and carries no
   * contract of its own, which keeps tests for a marker cheap to reason about.
   */
  predicate Occurs(s: string, pattern: string)
    decreases |s|
  {
    StartsWith(s, pattern) || (s != [] && Occurs(s[1..], pattern))
  }

  lemma {:induction false} OccursIffContains(s: string, pattern: string)
    ensures Occurs(s, pattern) <==> Contains(s, pattern)
    decreases |s|
  {
    if !StartsWith(s, pattern) && s != [] {
      OccursIffContains(s[1..], pattern);
    }
  }

  /** `s.split(separator)[0]`: the text before the first occurrence of a non-empty separator. */
  function Before(s: string, separator: string): (r: string)
    ensures StartsWith(s, r)
    ensures Contains(s, separator) ==> OccursAt(s, separator, |r|)
    ensures forall j :: 0 <= j < |r| ==> !OccursAt(s, separator, j)
    ensures !Contains(s, separator) ==> r == s
  {
    match IndexOf(s, separator)
    case Some(i) => s[..i]
    case None => s
  }

  /** The text after the first occurrence of a separator that occurs in `s`. */
  function AfterSeparator(s: string, separator: string): (rest: string)
    requires Contains(s, separator)
    ensures IndexOf(s, separator).value + |separator| <= |s|
    ensures rest == s[IndexOf(s, separator).value + |separator|..]
  {
    s[IndexOf(s, separator).value + |separator|..]
  }

  /**
   * `s.split(separator)[1]` for a separator that occurs in `s`: the text
   * after its first occurrence, up to the next occurrence or to the end.
   */
  function SecondPart(s: string, separator: string): (r: string)
    requires Contains(s, separator)
    ensures StartsWith(AfterSeparator(s, separator), r)
    ensures forall j :: 0 <= j < |r| ==> !OccursAt(AfterSeparator(s, separator), separator, j)
    ensures Contains(AfterSeparator(s, separator), separator) ==> OccursAt(AfterSeparator(s, separator), separator, |r|)
    ensures !Contains(AfterSeparator(s, separator), separator) ==> r == AfterSeparator(s, separator)
  {
    Before(AfterSeparator(s, separator), separator)
  }

  /** `s.split(separator)` for a one-character separator: never empty, and no piece holds the separator. */
  function Split(s: string, separator: char): (parts: seq<string>)
    ensures |parts| >= 1
    ensures forall k :: 0 <= k < |parts| ==> separator !in parts[k]
    decreases |s|
  {
    if s == [] then [[]]
    else
      var rest := Split(s[1..], separator);
      if s[0] == separator then [[]] + rest
      else [[s[0]] + rest[0]] + rest[1..]
  }

  /** `parts.join(separator)`. */
  function Join(parts: seq<string>, separator: char): string
    requires |parts| >= 1
  {
    if |parts| == 1 then parts[0] else parts[0] + [separator] + Join(parts[1..], separator)
  }

  lemma {:induction false} JoinConsFirst(c: char, parts: seq<string>, separator: char)
    requires |parts| >= 1
    ensures Join([[c] + parts[0]] + parts[1..], separator) == [c] + Join(parts, separator)
  {
    var q := [[c] + parts[0]] + parts[1..];
    assert q[1..] == parts[1..];
  }

  /** Splitting on a character and joining back gives the text unchanged. */
  lemma {:induction false} JoinSplit(s: string, separator: char)
    ensures Join(Split(s, separator), separator) == s
    decreases |s|
  {
    if s != [] {
      var rest := Split(s[1..], separator);
      JoinSplit(s[1..], separator);
      if s[0] == separator {
        assert ([[]] + rest)[1..] == rest;
      } else {
        JoinConsFirst(s[0], rest, separator);
      }
      assert s == [s[0]] + s[1..];
    }
  }

  /** Joining pieces that hold no separator and splitting again gives the same pieces. */
  lemma {:induction false} SplitJoin(parts: seq<string>, separator: char)
    requires |parts| >= 1
    requires forall k :: 0 <= k < |parts| ==> separator !in parts[k]
    ensures Split(Join(parts, separator), separator) == parts
    decreases |parts|, |parts[0]|
  {
    var p := parts[0];
    if p == [] {
      if |parts| > 1 {
        SplitJoin(parts[1..], separator);
        assert Join(parts, separator) == [separator] + Join(parts[1..], separator);
        assert Join(parts, separator)[1..] == Join(parts[1..], separator);
        assert parts == [[]] + parts[1..];
      }
    } else {
      var shorter := [p[1..]] + parts[1..];
      assert shorter[1..] == parts[1..];
      assert forall k :: 0 <= k < |shorter| ==> separator !in shorter[k] by {
        forall k | 0 <= k < |shorter| ensures separator !in shorter[k] {
          if k == 0 {
            assert forall x :: x in p[1..] ==> x in p;
          } else {
            assert shorter[k] == parts[k];
          }
        }
      }
      SplitJoin(shorter, separator);
      JoinConsFirst(p[0], shorter, separator);
      assert [[p[0]] + p[1..]] + parts[1..] == parts by {
        assert [p[0]] + p[1..] == p;
      }
      assert Join(parts, separator)[1..] == Join(shorter, separator);
      assert p[0] != separator;
    }
  }

  /** The non-whitespace characters of `s`, in order. */
  function NonSpace(s: string): string {
    if s == [] then [] else (if IsSpace(s[0]) then [] else [s[0]]) + NonSpace(s[1..])
  }

  lemma {:induction false} NonSpaceAppend(a: string, b: string)
    ensures NonSpace(a + b) == NonSpace(a) + NonSpace(b)
    decreases |a|
  {
    if a == [] {
      assert a + b == b;
    } else {
      assert (a + b)[0] == a[0] && (a + b)[1..] == a[1..] + b;
      NonSpaceAppend(a[1..], b);
    }
  }

  lemma {:induction false} NonSpaceOfSpaces(s: string)
    requires forall i :: 0 <= i < |s| ==> IsSpace(s[i])
    ensures NonSpace(s) == []
    decreases |s|
  {
    if s != [] {
      NonSpaceOfSpaces(s[1..]);
    }
  }

  /** Trimming removes whitespace only: the visible text is unchanged. */
  lemma TrimKeepsText(s: string)
    ensures NonSpace(TrimEnd(s)) == NonSpace(s)
    ensures NonSpace(Trim(s)) == NonSpace(s)
  {
    var e := TrimEnd(s);
    TrimEndSpec(s);
    TrimStartSpec(e);
    assert s == e + s[|e|..];
    NonSpaceAppend(e, s[|e|..]);
    NonSpaceOfSpaces(s[|e|..]);
    var t := TrimStart(e);
    assert e == e[..|e| - |t|] + t;
    NonSpaceAppend(e[..|e| - |t|], t);
    NonSpaceOfSpaces(e[..|e| - |t|]);
  }

  /** Trimming only removes characters. */
  lemma TrimWithin(s: string)
    ensures forall ch :: ch in Trim(s) ==> ch in s
  {
    TrimEndSpec(s);
    TrimStartSpec(TrimEnd(s));
  }

  /** Every piece of a split is made of characters of the text. */
  lemma {:induction false} SplitWithin(s: string, separator: char)
    ensures forall k :: 0 <= k < |Split(s, separator)| ==>
      forall ch :: ch in Split(s, separator)[k] ==> ch in s
    decreases |s|
  {
    if s != [] {
      SplitWithin(s[1..], separator);
      var rest := Split(s[1..], separator);
      assert forall ch :: ch in s[1..] ==> ch in s;
      if s[0] != separator {
        assert forall ch :: ch in [s[0]] + rest[0] ==> ch == s[0] || ch in rest[0];
      }
    }
  }
}
