/**
 * `parseAndExtractIDNReport`: turns the text of a scanner ("IDN") report
 * into its conditions and its scan type, in two passes. The first pass
 * rejoins physical lines that the exporter wrapped; the second walks the
 * logical lines with one open condition, which every `Date :` line closes
 * and replaces.
 */
module ParseIdnReport {
  import opened Optional
  import opened SeqFacts
  import opened Text
  import opened IdnPatterns

  /** One finding of a scan. Every field is optional, as in the source's `Condition` type. */
  datatype Condition = Condition(
    name: Option<string>,
    scale: Option<int>,
    percentage: Option<string>,
    realFreq: Option<seq<string>>,
    brainFreq: Option<seq<string>>)

  /** The parsed report: its conditions in order of appearance and its scan type. */
  datatype IdnReport = IdnReport(report: seq<Condition>, scanType: int)

  // ---------------------------------------------------------------------
  // Pass 1: line reassembly
  // ---------------------------------------------------------------------

  /** A raw line that the exporter cut short: its trimmed text ends in a comma or a brain label. */
  predicate NeedsJoin(line: string) {
    var t := Trim(line);
    EndsWith(t, ",") || EndsWith(t, "Brain Instruction") || EndsWith(t, "Brain Instruction Freq.")
  }

  /** A line with its continuation appended: `${line.trimEnd()}${next.trim()}`. */
  function JoinLines(line: string, next: string): string {
    TrimEnd(line) + Trim(next)
  }

  /**
   * The logical line that starts at raw line `i` and the index of the raw
   * line after it; `None` where the source reads past the last raw line
   * (`rawLines[i + 1].trim()` on `undefined` throws a TypeError).
   */
  function LogicalLine(raw: seq<string>, i: nat): (r: Option<(string, nat)>)
    requires i < |raw|
    ensures r.Some? ==> i + 1 <= r.value.1 <= i + 3 && r.value.1 <= |raw|
    ensures !NeedsJoin(raw[i]) ==> r == Some((raw[i], i + 1))
    ensures NeedsJoin(raw[i]) && i + 1 < |raw| && !EndsWith(Trim(JoinLines(raw[i], raw[i + 1])), ",")
            ==> r == Some((JoinLines(raw[i], raw[i + 1]), i + 2))
    ensures NeedsJoin(raw[i]) && i + 2 < |raw| && EndsWith(Trim(JoinLines(raw[i], raw[i + 1])), ",")
            ==> r == Some((JoinLines(JoinLines(raw[i], raw[i + 1]), raw[i + 2]), i + 3))
    ensures r.None? <==>
            && NeedsJoin(raw[i])
            && (i + 1 == |raw| || (i + 2 == |raw| && EndsWith(Trim(JoinLines(raw[i], raw[i + 1])), ",")))
  {
    if !NeedsJoin(raw[i]) then Some((raw[i], i + 1))
    else if i + 1 >= |raw| then None
    else
      var once := JoinLines(raw[i], raw[i + 1]);
      if !EndsWith(Trim(once), ",") then Some((once, i + 2))
      else if i + 2 >= |raw| then None
      else Some((JoinLines(once, raw[i + 2]), i + 3))
  }

  /** The logical lines from raw line `i` on; `None` if the source throws. */
  function ReassembleFrom(raw: seq<string>, i: nat): Option<seq<string>>
    requires i <= |raw|
    decreases |raw| - i
  {
    if i == |raw| then Some([])
    else
      match LogicalLine(raw, i)
      case None => None
      case Some((line, next)) =>
        match ReassembleFrom(raw, next)
        case None => None
        case Some(rest) => Some([line] + rest)
  }

  function Prefixed(lines: seq<string>, rest: Option<seq<string>>): Option<seq<string>> {
    match rest
    case None => None
    case Some(r) => Some(lines + r)
  }

  /**
   * The body of the reassembly loop: reads raw line `i`, joins one or two
   * continuation lines onto it, and returns the line with the index of the
   * next raw line to read.
   */
  method ReadLogicalLine(raw: seq<string>, i: nat) returns (r: Option<(string, nat)>)
    requires i < |raw|
    ensures r == LogicalLine(raw, i)
  {
    var line := raw[i];
    var next := i;
    if NeedsJoin(line) {
      if i + 1 >= |raw| {
        return None;
      }
      line := TrimEnd(line) + Trim(raw[i + 1]);
      if EndsWith(Trim(line), ",") {
        if i + 2 >= |raw| {
          return None;
        }
        line := TrimEnd(line) + Trim(raw[i + 2]);
        next := next + 2;
      } else {
        next := next + 1;
      }
    }
    return Some((line, next + 1));
  }

  /** Pass 1 of `parseAndExtractIDNReport`: the loop that rejoins wrapped lines. */
  method Reassemble(raw: seq<string>) returns (lines: Option<seq<string>>)
    ensures lines == ReassembleFrom(raw, 0)
  {
    var done: seq<string> := [];
    var i := 0;
    match ReassembleFrom(raw, 0) {
      case None =>
      case Some(all) => assert done + all == all;
    }
    while i < |raw|
      invariant i <= |raw|
      invariant ReassembleFrom(raw, 0) == Prefixed(done, ReassembleFrom(raw, i))
      decreases |raw| - i
    {
      var logical := ReadLogicalLine(raw, i);
      if logical.None? {
        return None;
      }
      var (line, next) := logical.value;
      match ReassembleFrom(raw, next) {
        case None =>
        case Some(rest) => assert done + ([line] + rest) == (done + [line]) + rest;
      }
      done := done + [line];
      i := next;
    }
    assert ReassembleFrom(raw, i) == Some([]);
    assert done + [] == done;
    return Some(done);
  }

  /** The text of a sequence of lines, without the line breaks. */
  function Concat(lines: seq<string>): string {
    if lines == [] then [] else lines[0] + Concat(lines[1..])
  }

  /** Joining a marked line with the next one loses and adds no visible character. */
  lemma {:induction false} NonSpaceOfJoin(line: string, next: string)
    ensures NonSpace(JoinLines(line, next)) == NonSpace(line) + NonSpace(next)
  {
    NonSpaceAppend(TrimEnd(line), Trim(next));
    TrimKeepsText(line);
    TrimKeepsText(next);
  }

  lemma {:induction false} ConcatAppend(a: seq<string>, b: seq<string>)
    ensures Concat(a + b) == Concat(a) + Concat(b)
    decreases |a|
  {
    if a == [] {
      assert a + b == b;
    } else {
      assert (a + b)[0] == a[0] && (a + b)[1..] == a[1..] + b;
      ConcatAppend(a[1..], b);
    }
  }

  /** A logical line holds the visible text of the raw lines it consumed. */
  lemma LogicalLineKeepsText(raw: seq<string>, i: nat)
    requires i < |raw|
    requires LogicalLine(raw, i).Some?
    ensures NonSpace(LogicalLine(raw, i).value.0) == NonSpace(Concat(raw[i..LogicalLine(raw, i).value.1]))
  {
    var next := LogicalLine(raw, i).value.1;
    LogicalLineShape(raw, i);
    ConcatOfSlice(raw, i, next - i);
    if next == i + 2 {
      NonSpaceOfJoin(raw[i], raw[i + 1]);
      NonSpaceAppend(raw[i], raw[i + 1]);
    } else if next == i + 3 {
      NonSpaceOfJoin(raw[i], raw[i + 1]);
      NonSpaceOfJoin(JoinLines(raw[i], raw[i + 1]), raw[i + 2]);
      NonSpaceAppend(raw[i], raw[i + 1] + raw[i + 2]);
      NonSpaceAppend(raw[i + 1], raw[i + 2]);
    }
  }

  /** A logical line is one raw line, two joined, or three joined. */
  lemma LogicalLineShape(raw: seq<string>, i: nat)
    requires i < |raw|
    requires LogicalLine(raw, i).Some?
    ensures var (line, next) := LogicalLine(raw, i).value;
      && (next == i + 1 ==> line == raw[i])
      && (next == i + 2 ==> line == JoinLines(raw[i], raw[i + 1]))
      && (next == i + 3 ==> line == JoinLines(JoinLines(raw[i], raw[i + 1]), raw[i + 2]))
  {
  }

  /** The text of one, two or three consecutive raw lines. */
  lemma ConcatOfSlice(raw: seq<string>, i: nat, n: nat)
    requires 1 <= n <= 3 && i + n <= |raw|
    ensures n == 1 ==> Concat(raw[i..i + n]) == raw[i]
    ensures n == 2 ==> Concat(raw[i..i + n]) == raw[i] + raw[i + 1]
    ensures n == 3 ==> Concat(raw[i..i + n]) == raw[i] + (raw[i + 1] + raw[i + 2])
  {
    var last := [raw[i + n - 1]];
    assert Concat(last) == raw[i + n - 1] by {
      ConcatCons(raw[i + n - 1], []);
    }
    if n == 1 {
      assert raw[i..i + n] == last;
    } else if n == 2 {
      assert raw[i..i + n] == [raw[i]] + last;
      ConcatCons(raw[i], last);
    } else {
      assert raw[i..i + n] == [raw[i]] + ([raw[i + 1]] + last);
      ConcatCons(raw[i], [raw[i + 1]] + last);
      ConcatCons(raw[i + 1], last);
    }
  }

  /**
   * Reassembly drops whitespace only: the logical lines hold the visible
   * text of the raw lines, all of it and in the same order.
   */
  lemma {:induction false} ReassemblyKeepsText(raw: seq<string>, i: nat)
    requires i <= |raw|
    requires ReassembleFrom(raw, i).Some?
    ensures NonSpace(Concat(ReassembleFrom(raw, i).value)) == NonSpace(Concat(raw[i..]))
    decreases |raw| - i
  {
    if i < |raw| {
      ReassembleStep(raw, i);
      var (line, next) := LogicalLine(raw, i).value;
      var rest := ReassembleFrom(raw, next).value;
      ReassemblyKeepsText(raw, next);
      LogicalLineKeepsText(raw, i);
      ConcatCons(line, rest);
      NonSpaceAppend(line, Concat(rest));
      SplitAt(raw, i, next);
      ConcatAppend(raw[i..next], raw[next..]);
      NonSpaceAppend(Concat(raw[i..next]), Concat(raw[next..]));
    } else {
      assert raw[i..] == [];
    }
  }

  /** Reassembly from `i` is the logical line at `i` followed by reassembly from where it ends. */
  lemma ReassembleStep(raw: seq<string>, i: nat)
    requires i < |raw| && ReassembleFrom(raw, i).Some?
    ensures LogicalLine(raw, i).Some?
    ensures ReassembleFrom(raw, LogicalLine(raw, i).value.1).Some?
    ensures ReassembleFrom(raw, i).value ==
      [LogicalLine(raw, i).value.0] + ReassembleFrom(raw, LogicalLine(raw, i).value.1).value
  {
  }

  lemma ConcatCons(line: string, rest: seq<string>)
    ensures Concat([line] + rest) == line + Concat(rest)
  {
    assert ([line] + rest)[1..] == rest;
  }

  /**
   * Each logical line consumes one, two or three raw lines: the output is
   * never longer than the input and at least a third of its length.
   */
  lemma {:induction false} ReassemblyLength(raw: seq<string>, i: nat)
    requires i <= |raw|
    requires ReassembleFrom(raw, i).Some?
    ensures 3 * |ReassembleFrom(raw, i).value| >= |raw| - i >= |ReassembleFrom(raw, i).value|
    decreases |raw| - i
  {
    if i < |raw| {
      ReassemblyLength(raw, LogicalLine(raw, i).value.1);
    }
  }

  /** Lines that need no join come out verbatim, untrimmed. */
  lemma {:induction false} ReassemblyIdentity(raw: seq<string>, i: nat)
    requires i <= |raw|
    requires forall k :: i <= k < |raw| ==> !NeedsJoin(raw[k])
    ensures ReassembleFrom(raw, i) == Some(raw[i..])
    decreases |raw| - i
  {
    if i < |raw| {
      ReassemblyIdentity(raw, i + 1);
      assert raw[i..] == [raw[i]] + raw[i + 1..];
    }
  }

  /**
   * Reassembly throws only when one of the last two raw lines needs a join:
   * with no continuation marker there, it always succeeds.
   */
  lemma {:induction false} ReassemblySucceeds(raw: seq<string>, i: nat)
    requires i <= |raw|
    requires forall k :: 0 <= k < |raw| && |raw| <= k + 2 ==> !NeedsJoin(raw[k])
    ensures ReassembleFrom(raw, i).Some?
    decreases |raw| - i
  {
    if i < |raw| {
      ReassemblySucceeds(raw, LogicalLine(raw, i).value.1);
    }
  }

  /** A logical line that ends within `pre` reads the same raw lines when more follow. */
  lemma LogicalLineAppend(pre: seq<string>, ext: seq<string>, i: nat)
    requires i < |pre| && LogicalLine(pre, i).Some?
    ensures LogicalLine(pre + ext, i) == LogicalLine(pre, i)
  {
    var raw := pre + ext;
    assert raw[i] == pre[i];
    if NeedsJoin(pre[i]) {
      assert raw[i + 1] == pre[i + 1];
      if LogicalLine(pre, i).value.1 == i + 3 {
        assert raw[i + 2] == pre[i + 2];
      }
    }
  }

  /**
   * Raw lines that reassemble on their own keep their logical lines when
   * more raw lines follow: no logical line of `pre` reads past its end.
   */
  lemma {:induction false} ReassembleAppend(pre: seq<string>, ext: seq<string>, i: nat)
    requires i <= |pre| && ReassembleFrom(pre, i).Some?
    ensures ReassembleFrom(pre + ext, i) == Prefixed(ReassembleFrom(pre, i).value, ReassembleFrom(pre + ext, |pre|))
    decreases |pre| - i
  {
    var raw := pre + ext;
    if i < |pre| {
      ReassembleStep(pre, i);
      var next := LogicalLine(pre, i).value.1;
      LogicalLineAppend(pre, ext, i);
      ReassembleUnfold(raw, i);
      ReassembleAppend(pre, ext, next);
      PrefixedTwice([LogicalLine(pre, i).value.0], ReassembleFrom(pre, next).value, ReassembleFrom(raw, |pre|));
    } else {
      PrefixedTwice([], [], ReassembleFrom(raw, |pre|));
    }
  }

  lemma ReassembleUnfold(raw: seq<string>, i: nat)
    requires i < |raw| && LogicalLine(raw, i).Some?
    ensures ReassembleFrom(raw, i) == Prefixed([LogicalLine(raw, i).value.0], ReassembleFrom(raw, LogicalLine(raw, i).value.1))
  {
  }

  lemma PrefixedTwice(a: seq<string>, b: seq<string>, rest: Option<seq<string>>)
    ensures Prefixed(a, Prefixed(b, rest)) == Prefixed(a + b, rest)
    ensures Prefixed([], rest) == rest
  {
    match rest
    case None =>
    case Some(r) =>
      assert a + (b + r) == (a + b) + r;
      assert [] + r == r;
  }

  /**
   * A logical line that starts on the last raw line and carries a
   * continuation marker reads `rawLines[i + 1]` past the end: the source
   * throws. A marker on the last raw line that an earlier join takes in
   * does not.
   */
  lemma TrailingCommaThrows(pre: seq<string>, last: string)
    requires ReassembleFrom(pre, 0).Some? && NeedsJoin(last)
    ensures ReassembleFrom(pre + [last], 0).None?
  {
    ReassembleAppend(pre, [last], 0);
    assert (pre + [last])[|pre|] == last;
  }

  /**
   * A logical line that starts on the second-to-last raw line and still
   * ends in `,` after its first join reads `rawLines[i + 2]` past the end.
   */
  lemma CommaAfterJoinThrows(pre: seq<string>, line: string, next: string)
    requires ReassembleFrom(pre, 0).Some? && NeedsJoin(line) && EndsWith(Trim(JoinLines(line, next)), ",")
    ensures ReassembleFrom(pre + [line, next], 0).None?
  {
    ReassembleAppend(pre, [line, next], 0);
    assert (pre + [line, next])[|pre|] == line && (pre + [line, next])[|pre| + 1] == next;
  }

  /**
   * The sample lines of the two examples below: only `Foo,` asks for a
   * join, and joined with `Bar` it gives `Foo,Bar`, which asks for no more.
   */
  lemma SampleLines()
    ensures JoinLines("Foo,", "Bar") == "Foo,Bar" && !EndsWith(Trim("Foo,Bar"), ",")
    ensures NeedsJoin("Foo,") && !NeedsJoin("Foo") && !NeedsJoin("Bar")
  {
    TrimmedIsFixed("Foo,");
    TrimmedIsFixed("Bar");
    TrimmedIsFixed("Foo");
    TrimmedIsFixed("Foo,Bar");
  }

  /** A wrapped pair is rejoined, and the comma that marked the wrap is kept. */
  lemma ReassemblyKeepsComma()
    ensures ReassembleFrom(["Foo,", "Bar"], 0) == Some(["Foo,Bar"])
  {
    SampleLines();
    var wrapped := ["Foo,", "Bar"];
    assert LogicalLine(wrapped, 0) == Some(("Foo,Bar", 2));
    assert ReassembleFrom(wrapped, 2) == Some([]);
    assert ["Foo,Bar"] + [] == ["Foo,Bar"];
  }

  /** The lines of the example below: `a,` asks for a join, and `a,b,` still ends in `,`. */
  lemma ChainLines()
    ensures NeedsJoin("a,") && JoinLines("a,", "b,") == "a,b,"
    ensures EndsWith(Trim("a,b,"), ",") && JoinLines("a,b,", "c,") == "a,b,c,"
  {
    var a, b, c, ab := "a,", "b,", "c,", "a,b,";
    TrimmedIsFixed(a);
    TrimmedIsFixed(b);
    TrimmedIsFixed(c);
    TrimmedIsFixed(ab);
    assert a[1..] == "," && ab[3..] == ",";
    assert a + b == ab;
    assert ab + c == "a,b,c,";
  }

  /**
   * A marker on the last raw line does not throw when a join that started
   * two lines earlier takes that line in.
   */
  lemma MarkedLastLineJoined(first: string, second: string, last: string)
    requires NeedsJoin(first) && EndsWith(Trim(JoinLines(first, second)), ",")
    ensures ReassembleFrom([first, second, last], 0) == Some([JoinLines(JoinLines(first, second), last)])
  {
    var raw := [first, second, last];
    var line := JoinLines(JoinLines(first, second), last);
    assert raw[0] == first && raw[1] == second && raw[2] == last;
    assert LogicalLine(raw, 0) == Some((line, 3));
    assert ReassembleFrom(raw, 3) == Some([]);
    assert [line] + [] == [line];
  }

  /** `["a,", "b,", "c,"]` reassembles into the one line `a,b,c,`, even though `c,` is marked. */
  lemma ChainedJoinExample()
    ensures ReassembleFrom(["a,", "b,", "c,"], 0) == Some(["a,b,c,"])
  {
    ChainLines();
    MarkedLastLineJoined("a,", "b,", "c,");
  }

  /** Lines without a continuation marker pass through unchanged. */
  lemma ReassemblyPassesThrough()
    ensures ReassembleFrom(["Foo", "Bar"], 0) == Some(["Foo", "Bar"])
  {
    SampleLines();
    var plain := ["Foo", "Bar"];
    assert LogicalLine(plain, 0) == Some(("Foo", 1));
    assert LogicalLine(plain, 1) == Some(("Bar", 2));
    assert ReassembleFrom(plain, 2) == Some([]);
    assert ["Bar"] + [] == ["Bar"];
    assert ReassembleFrom(plain, 1) == Some(["Bar"]);
    assert ["Foo"] + ["Bar"] == ["Foo", "Bar"];
  }

  // ---------------------------------------------------------------------
  // Pass 2: the condition scanner
  // ---------------------------------------------------------------------

  const DateMarker := "Date :"
  const ScaleMarker := "Scale:"
  const RealFreqMarker := "Real Instruction Freq."
  const BrainFreqMarker := "Brain Instruction Freq."
  const BrainFreqMarkerJoined := "Brain InstructionFreq."
  const BrainFreqMarkerSpaced := "Brain  Instruction Freq."
  const ScantypeMarker := "Scantype:"

  /** A line that `includes("Date :")`: it closes the open condition and opens the next one. */
  predicate IsDateLine(line: string) {
    Occurs(line, DateMarker)
  }

  /** The condition a date line opens: named by the text before its first double space, trimmed. */
  function NewCondition(line: string): Condition {
    Condition(Some(Trim(Before(line, "  "))), None, None, None, None)
  }

  /**
   * A date line opens a condition with every field but the name unset. The
   * name is text of the line before its first double space, holds no double
   * space itself, and neither starts nor ends with whitespace.
   */
  lemma NewConditionSpec(line: string)
    ensures var c := NewCondition(line);
      && c.name.Some? && c.scale.None? && c.percentage.None? && c.realFreq.None? && c.brainFreq.None?
      && Contains(Before(line, "  "), c.name.value)
      && !Contains(c.name.value, "  ")
      && (c.name.value != [] ==> !IsSpace(c.name.value[0]) && !IsSpace(c.name.value[|c.name.value| - 1]))
  {
    var head := Before(line, "  ");
    var name := Trim(head);
    var a := TrimmedAt(head);
    assert OccursAt(line, head, 0);
    if Contains(name, "  ") {
      var j := IndexOf(name, "  ").value;
      OccursWithin(head, name, a, "  ", j);
      OccursWithin(line, head, 0, "  ", a + j);
      assert false;
    }
  }

  /** Where the trimmed text stands in the original, and its ends. */
  lemma TrimmedAt(s: string) returns (a: nat)
    ensures OccursAt(s, Trim(s), a)
    ensures Trim(s) != [] ==> !IsSpace(Trim(s)[0]) && !IsSpace(Trim(s)[|Trim(s)| - 1])
  {
    var e := TrimEnd(s);
    var name := TrimStart(e);
    TrimEndSpec(s);
    TrimStartSpec(e);
    a := |e| - |name|;
    assert name == s[a..a + |name|];
    assert name != [] ==> name[|name| - 1] == e[|e| - 1];
  }

  function TrimAll(parts: seq<string>): (r: seq<string>)
    ensures |r| == |parts|
  {
    seq(|parts|, k requires 0 <= k < |parts| => Trim(parts[k]))
  }

  /**
   * The frequency list that follows `marker`: the first parenthesised group
   * after it, split on commas and trimmed, or the empty list when there is
   * no such group.
   */
  function FreqList(line: string, marker: string): seq<string>
    requires Contains(line, marker)
  {
    match ParenGroup(SecondPart(line, marker))
    case None => []
    case Some(group) => TrimAll(Split(group, ','))
  }

  /** A `Scale:` line sets `scale` and `percentage` where their patterns match, and leaves them otherwise. */
  function WithScale(c: Condition, line: string): Condition {
    if !Contains(line, ScaleMarker) then c
    else
      var scaled := match ScaleMatch(line)
        case Some(v) => c.(scale := Some(v))
        case None => c;
      match PercentageMatch(line)
      case Some(p) => scaled.(percentage := Some(p))
      case None => scaled
  }

  function WithBrainFreq(c: Condition, line: string, marker: string): Condition {
    if Contains(line, marker) then c.(brainFreq := Some(FreqList(line, marker))) else c
  }

  /** The frequency tests: the real label, then the three spellings of the brain label; a later test that finds its spelling overwrites an earlier one, whatever the positions of the spellings on the line. */
  function WithFreqs(c: Condition, line: string): Condition {
    var withReal := if Contains(line, RealFreqMarker)
      then c.(realFreq := Some(FreqList(line, RealFreqMarker))) else c;
    WithBrainFreq(WithBrainFreq(WithBrainFreq(withReal, line, BrainFreqMarker), line, BrainFreqMarkerJoined),
      line, BrainFreqMarkerSpaced)
  }

  /** The open condition after one line: each field marker, looked for in the source's order. */
  function WithFields(c: Condition, line: string): Condition {
    WithFreqs(WithScale(c, line), line)
  }

  /**
   * A `Scale:` line sets each of `scale` and `percentage` exactly when its
   * pattern matches, and leaves the other fields alone. The values come from
   * `ScaleMatch` and `PercentageMatch`, whose matchers carry their own
   * contracts; what this lemma adds is the frame: which fields stay as they were.
   */
  lemma WithScaleSpec(c: Condition, line: string)
    ensures var r := WithScale(c, line);
      && r.name == c.name && r.realFreq == c.realFreq && r.brainFreq == c.brainFreq
      && r.scale == (if Contains(line, ScaleMarker) && ScaleMatch(line).Some? then ScaleMatch(line) else c.scale)
      && r.percentage == (if Contains(line, ScaleMarker) && PercentageMatch(line).Some? then PercentageMatch(line) else c.percentage)
  {
  }

  /**
   * A frequency marker always sets its field, to `[]` when no group
   * follows. When several brain spellings are present, `Brain  Instruction
   * Freq.` takes precedence over `Brain InstructionFreq.`, which takes
   * precedence over `Brain Instruction Freq.`, whatever their positions on
   * the line.
   * The lists come from `FreqList` (see `FreqListEntries`); what this lemma
   * adds is the frame: which fields stay as they were.
   */
  lemma WithFreqsSpec(c: Condition, line: string)
    ensures var r := WithFreqs(c, line);
      && r.name == c.name && r.scale == c.scale && r.percentage == c.percentage
      && r.realFreq == (if Contains(line, RealFreqMarker) then Some(FreqList(line, RealFreqMarker)) else c.realFreq)
      && r.brainFreq ==
        (if Contains(line, BrainFreqMarkerSpaced) then Some(FreqList(line, BrainFreqMarkerSpaced))
         else if Contains(line, BrainFreqMarkerJoined) then Some(FreqList(line, BrainFreqMarkerJoined))
         else if Contains(line, BrainFreqMarker) then Some(FreqList(line, BrainFreqMarker))
         else c.brainFreq)
  {
  }

  /** The scanner's state: the open condition slot, the closed conditions, the scan type. */
  datatype ScanState = ScanState(current: Option<Condition>, conditions: seq<Condition>, scanType: int)

  const Start := ScanState(None, [], 0)

  /** One iteration of the scanner over a logical line. */
  function Step(st: ScanState, line: string): ScanState {
    var conditions := if IsDateLine(line) && st.current.Some? then st.conditions + [st.current.value]
      else st.conditions;
    var current := if IsDateLine(line) then Some(NewCondition(line)) else st.current;
    match current
    case None => ScanState(None, conditions, st.scanType)
    case Some(c) =>
      var scanType := if Contains(line, ScantypeMarker) && ScantypeMatch(line).Some?
        then ScantypeMatch(line).value else st.scanType;
      ScanState(Some(WithFields(c, line)), conditions, scanType)
  }

  function Run(st: ScanState, lines: seq<string>): ScanState
    decreases |lines|
  {
    if lines == [] then st else Run(Step(st, lines[0]), lines[1..])
  }

  /** End of input: the open condition, if any, is flushed. */
  function Finish(st: ScanState): IdnReport {
    IdnReport(st.conditions + (if st.current.Some? then [st.current.value] else []), st.scanType)
  }

  /** The report pass 2 builds from the logical lines. */
  function Scan(lines: seq<string>): IdnReport {
    Finish(Run(Start, lines))
  }

  /** A date line closes the open condition, if any, and opens a new one. */
  method OpenOnDateLine(current: Option<Condition>, conditions: seq<Condition>, line: string)
    returns (current': Option<Condition>, conditions': seq<Condition>)
    ensures conditions' == Step(ScanState(current, conditions, 0), line).conditions
    ensures current' == if IsDateLine(line) then Some(NewCondition(line)) else current
  {
    current', conditions' := current, conditions;
    OccursIffContains(line, DateMarker);
    if Contains(line, DateMarker) {
      if current'.Some? {
        conditions' := conditions' + [current'.value];
      }
      current' := Some(NewCondition(line));
    }
  }

  /** The `Scale:` test: the scale and the percentage, each where its pattern matches. */
  method ReadScale(current: Condition, line: string) returns (current': Condition)
    ensures current' == WithScale(current, line)
  {
    current' := current;
    if Contains(line, ScaleMarker) {
      var scale := ScaleMatch(line);
      if scale.Some? {
        current' := current'.(scale := Some(scale.value));
      }
      var percentage := PercentageMatch(line);
      if percentage.Some? {
        current' := current'.(percentage := percentage);
      }
    }
  }

  /** The frequency tests: the real label, then the three spellings of the brain label. */
  method ReadFrequencies(current: Condition, line: string) returns (current': Condition)
    ensures current' == WithFreqs(current, line)
  {
    current' := current;
    if Contains(line, RealFreqMarker) {
      current' := current'.(realFreq := Some(FreqList(line, RealFreqMarker)));
    }
    if Contains(line, BrainFreqMarker) {
      current' := current'.(brainFreq := Some(FreqList(line, BrainFreqMarker)));
    }
    if Contains(line, BrainFreqMarkerJoined) {
      current' := current'.(brainFreq := Some(FreqList(line, BrainFreqMarkerJoined)));
    }
    if Contains(line, BrainFreqMarkerSpaced) {
      current' := current'.(brainFreq := Some(FreqList(line, BrainFreqMarkerSpaced)));
    }
  }

  /** The body of the scanner loop: the tests a logical line goes through, in the source's order. */
  method ScanLine(current: Option<Condition>, conditions: seq<Condition>, scanType: int, line: string)
    returns (current': Option<Condition>, conditions': seq<Condition>, scanType': int)
    ensures ScanState(current', conditions', scanType') == Step(ScanState(current, conditions, scanType), line)
  {
    current', conditions' := OpenOnDateLine(current, conditions, line);
    scanType' := scanType;
    if current'.Some? {
      var scaled := ReadScale(current'.value, line);
      var filled := ReadFrequencies(scaled, line);
      current' := Some(filled);
      if Contains(line, ScantypeMarker) {
        var found := ScantypeMatch(line);
        if found.Some? {
          scanType' := found.value;
        }
      }
    }
  }

  /** Pass 2 of `parseAndExtractIDNReport`: the loop over logical lines with one open condition. */
  method ScanConditions(lines: seq<string>) returns (result: IdnReport)
    ensures result == Scan(lines)
  {
    var conditions: seq<Condition> := [];
    var current: Option<Condition> := None;
    var scanType := 0;
    for i := 0 to |lines|
      invariant Run(Start, lines) == Run(ScanState(current, conditions, scanType), lines[i..])
    {
      current, conditions, scanType := ScanLine(current, conditions, scanType, lines[i]);
      assert lines[i..][1..] == lines[i + 1..];
    }
    if current.Some? {
      conditions := conditions + [current.value];
    }
    assert lines[|lines|..] == [];
    result := IdnReport(conditions, scanType);
  }

  /** The whole parse of a report's text; `None` where the source throws a TypeError. */
  function ParseReport(content: string): Option<IdnReport> {
    match ReassembleFrom(Split(content, '\n'), 0)
    case None => None
    case Some(lines) => Some(Scan(lines))
  }

  /** `parseAndExtractIDNReport`, on the text of the file rather than its path. */
  method ParseAndExtractIdnReport(content: string) returns (result: Option<IdnReport>)
    ensures result == ParseReport(content)
  {
    var rawLines := Split(content, '\n');
    var lines := Reassemble(rawLines);
    if lines.None? {
      return None;
    }
    var report := ScanConditions(lines.value);
    return Some(report);
  }

  // ---------------------------------------------------------------------
  // Properties of the scanner
  // ---------------------------------------------------------------------

  /** The open condition after it has taken in the fields of `lines`, in order. */
  function Fill(c: Condition, lines: seq<string>): Condition
    decreases |lines|
  {
    if lines == [] then c else Fill(WithFields(c, lines[0]), lines[1..])
  }

  /** The index of the first date line, or the length when there is none. */
  function FirstDate(lines: seq<string>): (k: nat)
    ensures k <= |lines|
    ensures forall j :: 0 <= j < k ==> !IsDateLine(lines[j])
    ensures k < |lines| ==> IsDateLine(lines[k])
    decreases |lines|
  {
    if lines == [] || IsDateLine(lines[0]) then 0 else 1 + FirstDate(lines[1..])
  }

  /**
   * The reference reading of the record boundary: the lines before the first
   * date line are skipped; each date line opens a block that runs up to the
   * next date line, and the block's condition takes the fields of all its
   * lines, the date line included.
   */
  function Blocks(lines: seq<string>): seq<Condition>
    decreases |lines|
  {
    if lines == [] then []
    else if !IsDateLine(lines[0]) then Blocks(lines[1..])
    else
      var k := 1 + FirstDate(lines[1..]);
      [Fill(NewCondition(lines[0]), lines[..k])] + Blocks(lines[k..])
  }

  /** The date lines, in order. */
  function DateLines(lines: seq<string>): seq<string>
    decreases |lines|
  {
    if lines == [] then []
    else (if IsDateLine(lines[0]) then [lines[0]] else []) + DateLines(lines[1..])
  }

  function Pending(current: Option<Condition>, lines: seq<string>): seq<Condition> {
    match current
    case None => []
    case Some(c) => [Fill(c, lines)]
  }

  lemma {:induction false} SkipToFirstDate(lines: seq<string>, k: nat)
    requires k <= |lines|
    requires forall j :: 0 <= j < k ==> !IsDateLine(lines[j])
    ensures Blocks(lines) == Blocks(lines[k..])
    ensures DateLines(lines) == DateLines(lines[k..])
    decreases k
  {
    if k > 0 {
      SkipToFirstDate(lines[1..], k - 1);
      assert lines[1..][k - 1..] == lines[k..];
    }
  }

  lemma StepFacts(st: ScanState, line: string)
    ensures Step(st, line).conditions ==
      (if IsDateLine(line) then st.conditions + Pending(st.current, []) else st.conditions)
    ensures Step(st, line).current ==
      (if IsDateLine(line) then Some(WithFields(NewCondition(line), line))
       else if st.current.Some? then Some(WithFields(st.current.value, line)) else None)
  {
  }

  lemma FillFirst(c: Condition, lines: seq<string>)
    requires lines != []
    ensures Fill(c, lines) == Fill(WithFields(c, lines[0]), lines[1..])
  {
  }

  /**
   * The scanner and the reference agree from any state: the closed
   * conditions, then the open one filled up to the first date line, then
   * one block per date line.
   */
  lemma {:induction false} RunMatchesBlocks(st: ScanState, lines: seq<string>)
    ensures Finish(Run(st, lines)).report
      == st.conditions + Pending(st.current, lines[..FirstDate(lines)]) + Blocks(lines)
    decreases |lines|
  {
    if lines == [] {
      assert Pending(st.current, []) == (if st.current.Some? then [st.current.value] else []);
    } else {
      RunMatchesBlocks(Step(st, lines[0]), lines[1..]);
      RunStep(st, lines);
    }
  }

  /** The induction hypothesis of `RunMatchesBlocks` for the state after the first line. */
  predicate AfterFirst(st: ScanState, lines: seq<string>)
    requires lines != []
  {
    var next := Step(st, lines[0]);
    Finish(Run(next, lines[1..])).report
      == next.conditions + Pending(next.current, lines[1..][..FirstDate(lines[1..])]) + Blocks(lines[1..])
  }

  /** One step of the induction in `RunMatchesBlocks`. */
  lemma RunStep(st: ScanState, lines: seq<string>)
    requires lines != [] && AfterFirst(st, lines)
    ensures Finish(Run(st, lines)).report
      == st.conditions + Pending(st.current, lines[..FirstDate(lines)]) + Blocks(lines)
  {
    if IsDateLine(lines[0]) {
      RunStepDate(st, lines);
    } else {
      RunStepField(st, lines);
    }
  }

  lemma RunStepDate(st: ScanState, lines: seq<string>)
    requires lines != [] && IsDateLine(lines[0]) && AfterFirst(st, lines)
    ensures Finish(Run(st, lines)).report
      == st.conditions + Pending(st.current, lines[..FirstDate(lines)]) + Blocks(lines)
  {
    var next := Step(st, lines[0]);
    assert Run(st, lines) == Run(next, lines[1..]);
    DateLineCase(st, lines);
    Regroup(Finish(Run(st, lines)).report, next.conditions, st.conditions + Pending(st.current, lines[..FirstDate(lines)]),
      Pending(next.current, lines[1..][..FirstDate(lines[1..])]), Blocks(lines[1..]), Blocks(lines));
  }

  /**
   * The regrouping step of `RunStepDate`: the conditions closed before the
   * date line, then its block and the blocks after it.
   */
  lemma Regroup<T>(total: seq<T>, closed: seq<T>, before: seq<T>, later: seq<T>, rest: seq<T>, blocks: seq<T>)
    requires total == closed + later + rest && closed == before && blocks == later + rest
    ensures total == before + blocks
  {
  }

  lemma RunStepField(st: ScanState, lines: seq<string>)
    requires lines != [] && !IsDateLine(lines[0]) && AfterFirst(st, lines)
    ensures Finish(Run(st, lines)).report
      == st.conditions + Pending(st.current, lines[..FirstDate(lines)]) + Blocks(lines)
  {
    assert Run(st, lines) == Run(Step(st, lines[0]), lines[1..]);
    FieldLineCase(st, lines);
  }

  lemma FieldLineCase(st: ScanState, lines: seq<string>)
    requires lines != [] && !IsDateLine(lines[0])
    ensures var next := Step(st, lines[0]); var k' := FirstDate(lines[1..]);
      && FirstDate(lines) == 1 + k'
      && Blocks(lines) == Blocks(lines[1..])
      && next.conditions == st.conditions
      && Pending(next.current, lines[1..][..k']) == Pending(st.current, lines[..FirstDate(lines)])
  {
    var k' := FirstDate(lines[1..]);
    StepFacts(st, lines[0]);
    assert lines[..1 + k'][1..] == lines[1..][..k'];
    if st.current.Some? {
      FillFirst(st.current.value, lines[..1 + k']);
    }
  }

  lemma DateLineCase(st: ScanState, lines: seq<string>)
    requires lines != [] && IsDateLine(lines[0])
    ensures var next := Step(st, lines[0]); var k' := FirstDate(lines[1..]);
      && FirstDate(lines) == 0
      && next.conditions == st.conditions + Pending(st.current, lines[..0])
      && Blocks(lines) == Pending(next.current, lines[1..][..k']) + Blocks(lines[1..])
  {
    StepFacts(st, lines[0]);
    assert lines[..0] == [];
    DateBlock(lines);
  }

  /** A date line opens the block that runs up to the next date line; the blocks after it follow. */
  lemma DateBlock(lines: seq<string>)
    requires lines != [] && IsDateLine(lines[0])
    ensures Blocks(lines) ==
      [Fill(WithFields(NewCondition(lines[0]), lines[0]), lines[1..][..FirstDate(lines[1..])])] + Blocks(lines[1..])
  {
    var k' := FirstDate(lines[1..]);
    BlocksAtDate(lines);
    SkipToFirstDate(lines[1..], k');
    SliceFacts(lines, k');
    FillFirst(NewCondition(lines[0]), lines[..1 + k']);
  }

  lemma BlocksAtDate(lines: seq<string>)
    requires lines != [] && IsDateLine(lines[0])
    ensures Blocks(lines) == [Fill(NewCondition(lines[0]), lines[..1 + FirstDate(lines[1..])])]
      + Blocks(lines[1 + FirstDate(lines[1..])..])
  {
    var k := 1 + FirstDate(lines[1..]);
    assert Blocks(lines) == [Fill(NewCondition(lines[0]), lines[..k])] + Blocks(lines[k..]);
  }

  /** The report holds exactly the reference blocks: one condition per date line, fields from its own block. */
  lemma ScanMatchesBlocks(lines: seq<string>)
    ensures Scan(lines).report == Blocks(lines)
  {
    RunFromNothing(Start, lines);
  }

  lemma RunFromNothing(st: ScanState, lines: seq<string>)
    requires st.current.None? && |st.conditions| == 0
    ensures Finish(Run(st, lines)).report == Blocks(lines)
  {
    RunMatchesBlocks(st, lines);
    assert st.conditions + Pending(st.current, lines[..FirstDate(lines)]) == [];
  }

  lemma WithBrainFreqKeepsName(c: Condition, line: string, marker: string)
    ensures WithBrainFreq(c, line, marker).name == c.name
  {
  }

  /** No field line renames the open condition. */
  lemma WithFieldsKeepsName(c: Condition, line: string)
    ensures WithFields(c, line).name == c.name
  {
    var s := WithScale(c, line);
    assert s.name == c.name;
    var withReal := if Contains(line, RealFreqMarker)
      then s.(realFreq := Some(FreqList(line, RealFreqMarker))) else s;
    WithBrainFreqKeepsName(withReal, line, BrainFreqMarker);
    WithBrainFreqKeepsName(WithBrainFreq(withReal, line, BrainFreqMarker), line, BrainFreqMarkerJoined);
    WithBrainFreqKeepsName(WithBrainFreq(WithBrainFreq(withReal, line, BrainFreqMarker), line, BrainFreqMarkerJoined),
      line, BrainFreqMarkerSpaced);
  }

  lemma {:induction false} FillKeepsName(c: Condition, lines: seq<string>)
    ensures Fill(c, lines).name == c.name
    decreases |lines|
  {
    if lines != [] {
      WithFieldsKeepsName(c, lines[0]);
      FillKeepsName(WithFields(c, lines[0]), lines[1..]);
    }
  }

  /**
   * One block per date line, in order: the j-th condition is named after the
   * j-th date line, by the text before its first double space, trimmed.
   */
  lemma BlocksFollowDateLines(lines: seq<string>)
    ensures |Blocks(lines)| == |DateLines(lines)|
    ensures forall j :: 0 <= j < |Blocks(lines)| ==>
      Blocks(lines)[j].name == Some(Trim(Before(DateLines(lines)[j], "  ")))
  {
    BlockNames(lines);
    forall j | 0 <= j < |Blocks(lines)|
      ensures Blocks(lines)[j].name == Some(Trim(Before(DateLines(lines)[j], "  ")))
    {
      assert NameOf(Blocks(lines)[j]) == Map(Blocks(lines), NameOf)[j];
    }
  }

  function NameOf(c: Condition): Option<string> {
    c.name
  }

  /** The name a date line gives the condition it opens. */
  function DateName(line: string): Option<string> {
    Some(Trim(Before(line, "  ")))
  }

  /** The blocks' names are the date lines' names, in order. */
  lemma {:induction false} BlockNames(lines: seq<string>)
    ensures Map(Blocks(lines), NameOf) == Map(DateLines(lines), DateName)
    decreases |lines|
  {
    if lines != [] {
      if !IsDateLine(lines[0]) {
        BlockNames(lines[1..]);
        assert Blocks(lines) == Blocks(lines[1..]) && DateLines(lines) == DateLines(lines[1..]);
      } else {
        var k := 1 + FirstDate(lines[1..]);
        var head := Fill(NewCondition(lines[0]), lines[..k]);
        BlockNames(lines[k..]);
        BlocksAtDate(lines);
        SkipToFirstDate(lines[1..], k - 1);
        assert lines[1..][k - 1..] == lines[k..];
        assert DateLines(lines) == [lines[0]] + DateLines(lines[k..]);
        FillKeepsName(NewCondition(lines[0]), lines[..k]);
        MapCons(head, Blocks(lines[k..]), NameOf);
        MapCons(lines[0], DateLines(lines[k..]), DateName);
      }
    }
  }

  /** The number of conditions is the number of date lines, and their names follow them. */
  lemma ScanCountsDateLines(lines: seq<string>)
    ensures |Scan(lines).report| == |DateLines(lines)|
    ensures forall j :: 0 <= j < |Scan(lines).report| ==>
      Scan(lines).report[j].name == Some(Trim(Before(DateLines(lines)[j], "  ")))
  {
    ScanMatchesBlocks(lines);
    BlocksFollowDateLines(lines);
  }

  lemma {:induction false} RunAppend(st: ScanState, a: seq<string>, b: seq<string>)
    ensures Run(st, a + b) == Run(Run(st, a), b)
    decreases |a|
  {
    if a == [] {
      assert a + b == b;
    } else {
      assert (a + b)[0] == a[0] && (a + b)[1..] == a[1..] + b;
      RunAppend(Step(st, a[0]), a[1..], b);
    }
  }

  lemma {:induction false} RunBeforeFirstDate(lines: seq<string>)
    requires forall j :: 0 <= j < |lines| ==> !IsDateLine(lines[j])
    ensures Run(Start, lines) == Start
    decreases |lines|
  {
    if lines != [] {
      assert Step(Start, lines[0]) == Start;
      RunBeforeFirstDate(lines[1..]);
    }
  }

  /** Lines before the first date line are ignored, a `Scantype:` marker among them included. */
  lemma ScanIgnoresPreamble(preamble: seq<string>, lines: seq<string>)
    requires forall j :: 0 <= j < |preamble| ==> !IsDateLine(preamble[j])
    ensures Scan(preamble + lines) == Scan(lines)
  {
    RunAppend(Start, preamble, lines);
    RunBeforeFirstDate(preamble);
  }

  /** The slot is open after `lines` exactly when it was open before or one of them is a date line. */
  lemma {:induction false} RunOpensOnDate(st: ScanState, lines: seq<string>)
    ensures Run(st, lines).current.Some? <==>
      st.current.Some? || exists j :: 0 <= j < |lines| && IsDateLine(lines[j])
    decreases |lines|
  {
    if lines != [] {
      StepFacts(st, lines[0]);
      RunOpensOnDate(Step(st, lines[0]), lines[1..]);
      if exists j :: 0 <= j < |lines| && IsDateLine(lines[j]) {
        var j :| 0 <= j < |lines| && IsDateLine(lines[j]);
        if j > 0 {
          assert IsDateLine(lines[1..][j - 1]);
        }
      }
    }
  }

  /** Lines without a `Scantype:` match leave the scan type as it was. */
  lemma {:induction false} RunKeepsScanType(st: ScanState, lines: seq<string>)
    requires forall j :: 0 <= j < |lines| ==> ScantypeMatch(lines[j]).None?
    ensures Run(st, lines).scanType == st.scanType
    decreases |lines|
  {
    if lines != [] {
      RunKeepsScanType(Step(st, lines[0]), lines[1..]);
    }
  }

  /** Without a matching `Scantype:` line the scan type stays 0. */
  lemma ScanTypeDefaultsToZero(lines: seq<string>)
    requires forall j :: 0 <= j < |lines| ==> ScantypeMatch(lines[j]).None?
    ensures Scan(lines).scanType == 0
  {
    RunKeepsScanType(Start, lines);
  }

  /** A match implies the marker: the `includes` guard in front of the pattern never hides a match. */
  lemma ScantypeMatchHasMarker(line: string)
    requires ScantypeMatch(line).Some?
    ensures Contains(line, ScantypeMarker)
  {
    var p: nat :| p <= |line| && ScantypeAt(line, p) == ScantypeMatch(line);
    assert OccursAt(line, ScantypeLabel, p);
  }

  /**
   * Once a condition is open, the last matching `Scantype:` line decides the
   * scan type, however many lines without a match follow it.
   */
  lemma ScanTypeLastWins(lines: seq<string>, line: string, tail: seq<string>, v: nat)
    requires IsDateLine(line) || exists j :: 0 <= j < |lines| && IsDateLine(lines[j])
    requires ScantypeMatch(line) == Some(v)
    requires forall j :: 0 <= j < |tail| ==> ScantypeMatch(tail[j]).None?
    ensures Scan(lines + [line] + tail).scanType == v
  {
    RunAppend(Start, lines, [line]);
    RunOpensOnDate(Start, lines);
    ScantypeMatchHasMarker(line);
    assert Run(Run(Start, lines), [line]) == Step(Run(Start, lines), line);
    RunAppend(Start, lines + [line], tail);
    RunKeepsScanType(Run(Start, lines + [line]), tail);
  }

  /** Every entry of a frequency list is free of the commas and the `)` that delimited it. */
  predicate FreqEntries(fs: Option<seq<string>>) {
    fs.Some? ==> forall k :: 0 <= k < |fs.value| ==> ',' !in fs.value[k] && ')' !in fs.value[k]
  }

  /**
   * What every condition of a report satisfies: it has a name, its
   * percentage is a decimal numeral with `%`, its scale is a non-negative
   * number, and its frequency lists hold single items.
   */
  predicate WellFormed(c: Condition) {
    && c.name.Some?
    && (c.scale.Some? ==> c.scale.value >= 0)
    && (c.percentage.Some? ==> PercentText(c.percentage.value))
    && FreqEntries(c.realFreq)
    && FreqEntries(c.brainFreq)
  }

  lemma ParenGroupHasNoClose(s: string)
    ensures ParenGroup(s).Some? ==> ')' !in ParenGroup(s).value
  {
    if ParenGroup(s).Some? {
      var p: nat :| p <= |s| && ParenGroupAt(s, p) == ParenGroup(s);
    }
  }

  lemma PercentageMatchIsPercent(line: string)
    ensures PercentageMatch(line).Some? ==> PercentText(PercentageMatch(line).value)
  {
    if PercentageMatch(line).Some? {
      var p: nat :| p <= |line| && PercentageAt(line, p) == PercentageMatch(line);
      PercentageAtIsPercent(line, p);
    }
  }

  lemma FreqListEntries(line: string, marker: string)
    requires Contains(line, marker)
    ensures FreqEntries(Some(FreqList(line, marker)))
  {
    var tail := SecondPart(line, marker);
    ParenGroupHasNoClose(tail);
    match ParenGroup(tail)
    case None =>
    case Some(group) =>
      var parts := Split(group, ',');
      SplitWithin(group, ',');
      forall k | 0 <= k < |parts| ensures ',' !in Trim(parts[k]) && ')' !in Trim(parts[k]) {
        TrimWithin(parts[k]);
      }
  }

  lemma WithScaleWellFormed(c: Condition, line: string)
    requires WellFormed(c)
    ensures WellFormed(WithScale(c, line))
  {
    PercentageMatchIsPercent(line);
  }

  lemma WithBrainFreqWellFormed(c: Condition, line: string, marker: string)
    requires WellFormed(c)
    ensures WellFormed(WithBrainFreq(c, line, marker))
  {
    if Contains(line, marker) {
      FreqListEntries(line, marker);
    }
  }

  /** A field line keeps the open condition well formed. */
  lemma WithFieldsWellFormed(c: Condition, line: string)
    requires WellFormed(c)
    ensures WellFormed(WithFields(c, line))
  {
    var s := WithScale(c, line);
    WithScaleWellFormed(c, line);
    var withReal := if Contains(line, RealFreqMarker)
      then s.(realFreq := Some(FreqList(line, RealFreqMarker))) else s;
    if Contains(line, RealFreqMarker) {
      FreqListEntries(line, RealFreqMarker);
    }
    var b1 := WithBrainFreq(withReal, line, BrainFreqMarker);
    WithBrainFreqWellFormed(withReal, line, BrainFreqMarker);
    var b2 := WithBrainFreq(b1, line, BrainFreqMarkerJoined);
    WithBrainFreqWellFormed(b1, line, BrainFreqMarkerJoined);
    WithBrainFreqWellFormed(b2, line, BrainFreqMarkerSpaced);
  }

  lemma {:induction false} FillWellFormed(c: Condition, lines: seq<string>)
    requires WellFormed(c)
    ensures WellFormed(Fill(c, lines))
    decreases |lines|
  {
    if lines != [] {
      WithFieldsWellFormed(c, lines[0]);
      FillWellFormed(WithFields(c, lines[0]), lines[1..]);
    }
  }

  lemma {:induction false} BlocksWellFormed(lines: seq<string>)
    ensures forall j :: 0 <= j < |Blocks(lines)| ==> WellFormed(Blocks(lines)[j])
    decreases |lines|
  {
    if lines != [] {
      if !IsDateLine(lines[0]) {
        BlocksWellFormed(lines[1..]);
      } else {
        var k := 1 + FirstDate(lines[1..]);
        BlocksWellFormed(lines[k..]);
        DateBlockWellFormed(lines, k);
      }
    }
  }

  /** The date-line case of `BlocksWellFormed`: the block it opens is well formed too. */
  lemma DateBlockWellFormed(lines: seq<string>, k: nat)
    requires lines != [] && IsDateLine(lines[0]) && k == 1 + FirstDate(lines[1..])
    requires forall j :: 0 <= j < |Blocks(lines[k..])| ==> WellFormed(Blocks(lines[k..])[j])
    ensures forall j :: 0 <= j < |Blocks(lines)| ==> WellFormed(Blocks(lines)[j])
  {
    BlocksAtDate(lines);
    FillWellFormed(NewCondition(lines[0]), lines[..k]);
    var rest := Blocks(lines[k..]);
    forall j | 0 <= j < |Blocks(lines)| ensures WellFormed(Blocks(lines)[j]) {
      if j > 0 {
        assert Blocks(lines)[j] == rest[j - 1];
      }
    }
  }

  lemma {:induction false} RunScanTypeNonNegative(st: ScanState, lines: seq<string>)
    requires st.scanType >= 0
    ensures Run(st, lines).scanType >= 0
    decreases |lines|
  {
    if lines != [] {
      RunScanTypeNonNegative(Step(st, lines[0]), lines[1..]);
    }
  }

  /** Every condition the scanner reports is well formed, and the scan type is never negative. */
  lemma ScanWellFormed(lines: seq<string>)
    ensures forall j :: 0 <= j < |Scan(lines).report| ==> WellFormed(Scan(lines).report[j])
    ensures Scan(lines).scanType >= 0
  {
    ScanMatchesBlocks(lines);
    BlocksWellFormed(lines);
    RunScanTypeNonNegative(Start, lines);
  }
}
