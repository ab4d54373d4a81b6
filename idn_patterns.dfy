/**
 * The regular expressions of the IDN report parser, each written out as an
 * explicit matcher: a function that says whether the pattern matches at one
 * position, and a leftmost search over positions, as JavaScript's
 * `String.prototype.match` does for a pattern without the `g` flag.
 */
module IdnPatterns {
  import opened Optional
  import opened SeqFacts
  import opened Text

  /** `\d`: an ASCII digit. */
  predicate IsDigit(c: char) {
    '0' <= c <= '9'
  }

  predicate AllDigits(s: string) {
    forall i :: 0 <= i < |s| ==> IsDigit(s[i])
  }

  /** Greedy `\d*` at the start of `s`: the longest prefix of digits. */
  function DigitRun(s: string): (r: string)
    ensures StartsWith(s, r) && AllDigits(r)
    ensures |r| < |s| ==> !IsDigit(s[|r|])
    decreases |s|
  {
    if s != [] && IsDigit(s[0]) then [s[0]] + DigitRun(s[1..]) else []
  }

  /** A digit run covers every all-digit prefix. */
  lemma DigitRunAtLeast(s: string, k: nat)
    requires k <= |s| && AllDigits(s[..k])
    ensures |DigitRun(s)| >= k
  {
  }

  /** An all-digit prefix followed by a non-digit, or by the end, is the digit run. */
  lemma DigitRunIs(s: string, k: nat)
    requires k <= |s| && AllDigits(s[..k])
    requires k < |s| ==> !IsDigit(s[k])
    ensures DigitRun(s) == s[..k]
  {
    DigitRunAtLeast(s, k);
  }

  /** Greedy `\s*` at the start of `s`: the longest prefix of whitespace. */
  function SpaceRun(s: string): (r: string)
    ensures StartsWith(s, r)
    ensures forall i :: 0 <= i < |r| ==> IsSpace(r[i])
    ensures |r| < |s| ==> !IsSpace(s[|r|])
    decreases |s|
  {
    if s != [] && IsSpace(s[0]) then [s[0]] + SpaceRun(s[1..]) else []
  }

  /** `Number.parseInt` of a string of decimal digits (unbounded: no loss of precision). */
  function DigitsValue(ds: string): nat
    requires AllDigits(ds)
    decreases |ds|
  {
    if ds == [] then 0 else DigitsValue(ds[..|ds| - 1]) * 10 + (ds[|ds| - 1] as int - '0' as int)
  }

  /** The ASCII case folding of a regular expression with the `i` flag. */
  function AsciiLower(c: char): char {
    if 'A' <= c <= 'Z' then (c as int + 32) as char else c
  }

  predicate StartsWithIgnoringCase(s: string, prefix: string) {
    |prefix| <= |s| && forall i :: 0 <= i < |prefix| ==> AsciiLower(s[i]) == AsciiLower(prefix[i])
  }

  /**
   * The leftmost match: the result of `at` at the first position, from `from`
   * on, where it matches.
   */
  function Leftmost<T>(s: string, at: (string, nat) -> Option<T>, from: nat): (r: Option<T>)
    ensures r.Some? ==>
      exists p: nat :: from <= p <= |s| && at(s, p) == r && forall q: nat :: from <= q < p ==> at(s, q).None?
    ensures r.None? ==> forall p: nat :: from <= p <= |s| ==> at(s, p).None?
    decreases |s| + 1 - from
  {
    if from > |s| then None
    else if at(s, from).Some? then at(s, from)
    else Leftmost(s, at, from + 1)
  }

  const ScaleLabel := "Scale: "

  /** `/Scale: (\d+)/` tried at position `p`: the captured number. */
  function ScaleAt(line: string, p: nat): (r: Option<nat>)
    ensures r.Some? <==> OccursAt(line, ScaleLabel, p) && p + |ScaleLabel| < |line| && IsDigit(line[p + |ScaleLabel|])
    ensures r.Some? ==> r.value == DigitsValue(DigitRun(line[p + |ScaleLabel|..]))
  {
    assert p <= |line| ==> (StartsWith(line[p..], ScaleLabel) <==> OccursAt(line, ScaleLabel, p)) by {
      if p + |ScaleLabel| <= |line| {
        assert line[p..][..|ScaleLabel|] == line[p..p + |ScaleLabel|];
      }
    }
    if p <= |line| && StartsWith(line[p..], ScaleLabel) then
      var digits := DigitRun(line[p + |ScaleLabel|..]);
      if digits != [] then Some(DigitsValue(digits)) else None
    else None
  }

  /** `line.match(/Scale: (\d+)/)`, parsed with `Number.parseInt`. */
  function ScaleMatch(line: string): Option<nat> {
    Leftmost(line, ScaleAt, 0)
  }

  /**
   * A decimal numeral `\d+(\.\d+)?`: digits, optionally followed by a point
   * and more digits.
   */
  predicate DecimalNumeral(b: string) {
    match IndexOf(b, ".")
    case None => b != [] && AllDigits(b)
    case Some(i) => 0 < i && i + 1 < |b| && AllDigits(b[..i]) && AllDigits(b[i + 1..])
  }

  /** What the percentage capture group yields: a decimal numeral followed by `%`. */
  predicate PercentText(t: string) {
    |t| >= 2 && t[|t| - 1] == '%' && DecimalNumeral(t[..|t| - 1])
  }

  lemma NumeralWithFraction(b: string, whole: string, frac: string)
    requires whole != [] && AllDigits(whole) && frac != [] && AllDigits(frac)
    requires b == whole + "." + frac
    ensures DecimalNumeral(b)
  {
    assert OccursAt(b, ".", |whole|);
    forall j: nat | j < |whole| ensures !OccursAt(b, ".", j) {
      assert b[j] == whole[j];
    }
    assert b[..|whole|] == whole && b[|whole| + 1..] == frac;
  }

  lemma NumeralWithoutFraction(b: string, whole: string)
    requires whole != [] && AllDigits(whole) && b == whole
    ensures DecimalNumeral(b)
  {
    forall j: nat | j <= |whole| ensures !OccursAt(whole, ".", j) {
      if j < |whole| {
        assert whole[j..j + 1] == [whole[j]];
      }
    }
  }

  /**
   * Greedy `\d+(\.\d+)?` at the start of `s`: the length of the numeral, 0
   * when `s` does not start with a digit. No backtracking can give another
   * length: a shorter digit run would leave a digit where `.` or the next
   * token must stand.
   */
  function NumeralLength(s: string): (n: nat)
    ensures n <= |s|
    ensures n > 0 <==> |s| > 0 && IsDigit(s[0])
  {
    var whole := DigitRun(s);
    if whole == [] then 0
    else if |whole| < |s| && s[|whole|] == '.' && DigitRun(s[|whole| + 1..]) != [] then
      |whole| + 1 + |DigitRun(s[|whole| + 1..])|
    else
      |whole|
  }

  /** What `\d+(\.\d+)?` consumes is a decimal numeral. */
  lemma NumeralLengthIsNumeral(s: string)
    requires NumeralLength(s) > 0
    ensures DecimalNumeral(s[..NumeralLength(s)])
  {
    var whole := DigitRun(s);
    if |whole| < |s| && s[|whole|] == '.' && DigitRun(s[|whole| + 1..]) != [] {
      var frac := DigitRun(s[|whole| + 1..]);
      assert NumeralLength(s) == |whole| + 1 + |frac|;
      ThreePieces(s, whole, '.', frac);
      NumeralWithFraction(s[..NumeralLength(s)], whole, frac);
    } else {
      assert NumeralLength(s) == |whole|;
      NumeralWithoutFraction(s[..NumeralLength(s)], whole);
    }
  }

  /**
   * No longer prefix is a numeral: the greedy match takes the longest
   * `\d+(\.\d+)?` there is.
   */
  lemma NumeralLengthIsLongest(s: string, m: nat)
    requires NumeralLength(s) < m <= |s|
    ensures !DecimalNumeral(s[..m])
  {
    var b := s[..m];
    if DecimalNumeral(b) {
      match IndexOf(b, ".")
      case None =>
        DigitRunAtLeast(s, m);
        assert false;
      case Some(i) =>
        assert b[i..i + 1] == ".";
        assert s[..i] == b[..i];
        DigitRunIs(s, i);
        assert s[i + 1..][..m - i - 1] == b[i + 1..];
        DigitRunAtLeast(s[i + 1..], m - i - 1);
        assert false;
    }
  }

  /**
   * A numeral followed by a character that can neither extend it nor start
   * its fraction is exactly what the greedy match takes.
   */
  lemma NumeralLengthStops(s: string, m: nat)
    requires m < |s| && DecimalNumeral(s[..m])
    requires !IsDigit(s[m]) && s[m] != '.'
    ensures NumeralLength(s) == m
  {
    var b := s[..m];
    match IndexOf(b, ".")
    case None =>
      DigitRunIs(s, m);
    case Some(i) =>
      assert b[i..i + 1] == ".";
      assert s[..i] == b[..i];
      DigitRunIs(s, i);
      assert s[i + 1..][..m - i - 1] == b[i + 1..];
      DigitRunIs(s[i + 1..], m - i - 1);
  }

  /**
   * `/\((\d+(\.\d+)?%)\)\s*Scale:/i` tried at position `p`: the captured
   * percentage, `%` included.
   */
  function PercentageAt(line: string, p: nat): (r: Option<string>)
    ensures r.Some? ==> p < |line| && line[p] == '('
    ensures r.Some? ==> |r.value| == NumeralLength(line[p + 1..]) + 1 >= 2 && p + 1 + |r.value| < |line|
    ensures r.Some? ==>
      r.value[..|r.value| - 1] == line[p + 1..][..NumeralLength(line[p + 1..])] && r.value[|r.value| - 1] == '%'
    ensures r.Some? ==> line[p + 1..p + 1 + |r.value|] == r.value && line[p + 1 + |r.value|] == ')'
  {
    if p < |line| && line[p] == '(' && PercentTailAt(line, p, NumeralLength(line[p + 1..])) then
      CaptureFacts(line, p, NumeralLength(line[p + 1..]));
      Some(line[p + 1..p + 1 + NumeralLength(line[p + 1..]) + 1])
    else None
  }

  /** After `(` at `p` and a numeral of `n` characters: `%)`, optional whitespace and `Scale:`. */
  predicate PercentTailAt(line: string, p: nat, n: nat) {
    && n > 0 && p + 1 + n + 1 < |line| && line[p + 1 + n] == '%' && line[p + 1 + n + 1] == ')'
    && ScaleLabelLeads(line[p + 1 + n + 2..])
  }

  /** Where the percentage capture of `n` numeral characters at `p` stands on the line. */
  lemma CaptureFacts(line: string, p: nat, n: nat)
    requires PercentTailAt(line, p, n)
    ensures var t := line[p + 1..p + 1 + n + 1];
      && |t| == n + 1 && p + 1 + |t| < |line|
      && t[..|t| - 1] == line[p + 1..][..n] && t[|t| - 1] == '%'
      && line[p + 1..p + 1 + |t|] == t && line[p + 1 + |t|] == ')'
  {
    SliceOfRest(line, p + 1, n);
  }

  /** `/\s*Scale:/i` at the start of `s`. */
  predicate ScaleLabelLeads(s: string) {
    StartsWithIgnoringCase(s[|SpaceRun(s)|..], "scale:")
  }

  /** What the percentage pattern captures is a decimal numeral followed by `%`. */
  lemma PercentageAtIsPercent(line: string, p: nat)
    ensures PercentageAt(line, p).Some? ==> PercentText(PercentageAt(line, p).value)
  {
    if PercentageAt(line, p).Some? {
      NumeralLengthIsNumeral(line[p + 1..]);
    }
  }

  /**
   * A percentage is only captured where `Scale:` follows its `)`, after
   * optional whitespace: the capture holds `NumeralLength(line[p + 1..]) + 1`
   * characters, so its `)` stands at `p + 1 + NumeralLength(line[p + 1..]) + 1`.
   */
  lemma PercentageAtNeedsScale(line: string, p: nat)
    ensures PercentageAt(line, p).Some? ==> ScaleLabelLeads(line[p + 1 + NumeralLength(line[p + 1..]) + 2..])
  {
    if PercentageAt(line, p).Some? {
      assert PercentTailAt(line, p, NumeralLength(line[p + 1..]));
    }
  }

  /**
   * Conversely, `(`, a decimal numeral, `%)` and `Scale:` after optional
   * whitespace always match, and the capture is the numeral with its `%`.
   */
  lemma PercentageAtMatches(line: string, p: nat, m: nat)
    requires p + 1 + m + 1 < |line| && line[p] == '('
    requires DecimalNumeral(line[p + 1..p + 1 + m]) && line[p + 1 + m] == '%' && line[p + 1 + m + 1] == ')'
    requires ScaleLabelLeads(line[p + 1 + m + 2..])
    ensures PercentageAt(line, p) == Some(line[p + 1..p + 1 + m + 1])
  {
    var rest := line[p + 1..];
    assert rest[..m] == line[p + 1..p + 1 + m];
    NumeralLengthStops(rest, m);
    assert m > 0;
    PercentageAtWhen(line, p, m);
  }

  lemma PercentageAtWhen(line: string, p: nat, n: nat)
    requires p < |line| && line[p] == '(' && NumeralLength(line[p + 1..]) == n && PercentTailAt(line, p, n)
    ensures PercentageAt(line, p) == Some(line[p + 1..p + 1 + n + 1])
  {
  }

  /** `line.match(/\((\d+(\.\d+)?%)\)\s*Scale:/i)`, first capture group. */
  function PercentageMatch(line: string): Option<string> {
    Leftmost(line, PercentageAt, 0)
  }

  const ScantypeLabel := "Scantype:"

  /** `/Scantype:\s*(\d+)/` tried at position `p`: the captured number. */
  function ScantypeAt(line: string, p: nat): (r: Option<nat>)
    ensures r.Some? <==> OccursAt(line, ScantypeLabel, p) && DigitAfterSpaces(line[p + |ScantypeLabel|..])
    ensures r.Some? ==> r.value == DigitsValue(DigitRun(AfterSpaces(line[p + |ScantypeLabel|..])))
  {
    assert p <= |line| ==> (StartsWith(line[p..], ScantypeLabel) <==> OccursAt(line, ScantypeLabel, p)) by {
      if p + |ScantypeLabel| <= |line| {
        assert line[p..][..|ScantypeLabel|] == line[p..p + |ScantypeLabel|];
      }
    }
    if p <= |line| && StartsWith(line[p..], ScantypeLabel) then
      var rest := line[p + |ScantypeLabel|..];
      var digits := DigitRun(rest[|SpaceRun(rest)|..]);
      if digits != [] then Some(DigitsValue(digits)) else None
    else None
  }

  /** `s` without its leading whitespace run. */
  function AfterSpaces(s: string): string {
    s[|SpaceRun(s)|..]
  }

  /** `\s*\d` at the start of `s`. */
  predicate DigitAfterSpaces(s: string) {
    |SpaceRun(s)| < |s| && IsDigit(s[|SpaceRun(s)|])
  }

  /** A whitespace prefix followed by a non-space, or by the end, is the whitespace run. */
  lemma SpaceRunIs(s: string, k: nat)
    requires k <= |s| && forall i :: 0 <= i < k ==> IsSpace(s[i])
    requires k < |s| ==> !IsSpace(s[k])
    ensures |SpaceRun(s)| == k
    decreases k
  {
    if k > 0 {
      SpaceRunIs(s[1..], k - 1);
    }
  }

  /**
   * Conversely, `Scantype:`, `k` whitespace characters and a digit always
   * match, and the capture is the digit run after the whitespace.
   */
  lemma ScantypeAtMatches(line: string, p: nat, k: nat)
    requires OccursAt(line, ScantypeLabel, p) && p + |ScantypeLabel| + k < |line|
    requires forall i :: p + |ScantypeLabel| <= i < p + |ScantypeLabel| + k ==> IsSpace(line[i])
    requires IsDigit(line[p + |ScantypeLabel| + k])
    ensures ScantypeAt(line, p) == Some(DigitsValue(DigitRun(line[p + |ScantypeLabel| + k..])))
  {
    var rest := line[p + |ScantypeLabel|..];
    SpaceRunIs(rest, k);
    assert rest[k..] == line[p + |ScantypeLabel| + k..];
  }

  /** `line.match(/Scantype:\s*(\d+)/)`, parsed with `Number.parseInt`. */
  function ScantypeMatch(line: string): Option<nat> {
    Leftmost(line, ScantypeAt, 0)
  }

  /** `/\(([^)]+)\)/` tried at position `p`: the non-empty text up to the next `)`. */
  function ParenGroupAt(s: string, p: nat): (r: Option<string>)
    ensures r.Some? ==> r.value != [] && ')' !in r.value
    ensures r.Some? ==> p < |s| && s[p] == '(' && p + 1 + |r.value| < |s|
    ensures r.Some? ==> s[p + 1..p + 1 + |r.value|] == r.value && s[p + 1 + |r.value|] == ')'
  {
    if p < |s| && s[p] == '(' then
      match IndexOf(s[p + 1..], ")")
      case Some(q) =>
        if q > 0 then
          var group := s[p + 1..p + 1 + q];
          forall i | 0 <= i < q ensures group[i] != ')' {
            assert !OccursAt(s[p + 1..], ")", i);
            assert s[p + 1..][i..i + 1] == [group[i]];
          }
          assert s[p + 1..][q..q + 1] == [s[p + 1 + q]];
          Some(group)
        else None
      case None => None
    else None
  }

  /**
   * Conversely, `(`, `q > 0` characters none of which is `)`, and `)`
   * always match, and the capture is those `q` characters.
   */
  lemma ParenGroupAtMatches(s: string, p: nat, q: nat)
    requires p + 1 + q < |s| && s[p] == '(' && q > 0 && s[p + 1 + q] == ')'
    requires forall i :: p + 1 <= i < p + 1 + q ==> s[i] != ')'
    ensures ParenGroupAt(s, p) == Some(s[p + 1..p + 1 + q])
  {
    var rest := s[p + 1..];
    assert OccursAt(rest, ")", q) by {
      assert rest[q..q + 1] == [s[p + 1 + q]];
    }
    forall j | 0 <= j < q ensures !OccursAt(rest, ")", j) {
      assert rest[j..j + 1] == [s[p + 1 + j]];
    }
    match IndexOf(rest, ")")
    case Some(k) =>
      assert k == q;
    case None =>
      assert false;
  }

  /** `s.match(/\(([^)]+)\)/)`, first capture group. */
  function ParenGroup(s: string): Option<string> {
    Leftmost(s, ParenGroupAt, 0)
  }
}
