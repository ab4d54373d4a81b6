/**
 * The computations at the head of `generateRichDocument` and the
 * leadership-dynamics table: which organ-indicator grouping the document
 * shows, which biological-inflammation groupings the scanner reports
 * match, the per-scan-type averages, and the pairing of leadership
 * dynamics into table rows.
 */
module GenerateDocx {
  import opened Optional
  import opened SeqFacts
  import opened Text
  import opened IdnPatterns
  import opened ParseIdnReport

  /** A catalog entry naming the health areas that all have to be indicated. */
  datatype OrganIndicatorGrouping = OrganIndicatorGrouping(
    groupHealthArea: string,
    healthAreas: seq<string>,
    explanation: string)

  /** A catalog entry naming the conditions that all have to be present in a report. */
  datatype InflammationGrouping = InflammationGrouping(groupName: string, inflammations: seq<string>)

  // ---------------------------------------------------------------------
  // Organ-indicator grouping: the first grouping in catalog order whose
  // health areas are all indicated
  // ---------------------------------------------------------------------

  /**
   * `group.healthAreas.every(a => parsedData?.organ_indicators.includes(a))`.
   * Without parsed data every `includes` is `undefined`, so only a grouping
   * with no health areas qualifies.
   */
  predicate Covers(g: OrganIndicatorGrouping, indicators: Option<seq<string>>) {
    forall k :: 0 <= k < |g.healthAreas| ==> indicators.Some? && g.healthAreas[k] in indicators.value
  }

  /** The search loop with its `break`: the first covering grouping, or `null`. */
  method SelectOrganGrouping(groupings: seq<OrganIndicatorGrouping>, indicators: Option<seq<string>>)
    returns (selected: Option<OrganIndicatorGrouping>)
    ensures selected.None? <==> forall i :: 0 <= i < |groupings| ==> !Covers(groupings[i], indicators)
    ensures selected.Some? ==>
      exists i :: 0 <= i < |groupings| && groupings[i] == selected.value && Covers(groupings[i], indicators)
        && forall j :: 0 <= j < i ==> !Covers(groupings[j], indicators)
  {
    selected := None;
    var i := 0;
    while i < |groupings|
      invariant 0 <= i <= |groupings|
      invariant forall j :: 0 <= j < i ==> !Covers(groupings[j], indicators)
      invariant selected.None?
    {
      if Covers(groupings[i], indicators) {
        selected := Some(groupings[i]);
        break;
      }
      i := i + 1;
    }
  }

  // ---------------------------------------------------------------------
  // The match predicate shared by the inflammation collection and the
  // aggregates
  // ---------------------------------------------------------------------

  /** `idnReport.report.map(f => f.name)`. */
  function ConditionNames(r: IdnReport): (names: seq<Option<string>>)
    ensures |names| == |r.report|
    ensures forall j :: 0 <= j < |r.report| ==> names[j] == r.report[j].name
  {
    seq(|r.report|, j requires 0 <= j < |r.report| => r.report[j].name)
  }

  /**
   * `group.inflammations.every(i => reportInflammations.includes(i))`: every
   * inflammation of the grouping names some condition of the report. Extra
   * conditions are allowed, and a grouping without inflammations matches
   * every report.
   */
  predicate Matches(g: InflammationGrouping, r: IdnReport) {
    forall k :: 0 <= k < |g.inflammations| ==> Some(g.inflammations[k]) in ConditionNames(r)
  }

  /** The matching groupings of one report, in catalog order. */
  function MatchingIn(catalog: seq<InflammationGrouping>, r: IdnReport): (gs: seq<InflammationGrouping>)
    ensures forall g :: g in gs <==> g in catalog && Matches(g, r)
    decreases |catalog|
  {
    if catalog == [] then []
    else
      var last := catalog[|catalog| - 1];
      MatchingIn(catalog[..|catalog| - 1], r) + (if Matches(last, r) then [last] else [])
  }

  /** The matching groupings of every report: report by report, each in catalog order. */
  function AllMatches(reports: seq<IdnReport>, catalog: seq<InflammationGrouping>): seq<InflammationGrouping>
    decreases |reports|
  {
    if reports == [] then []
    else AllMatches(reports[..|reports| - 1], catalog) + MatchingIn(catalog, reports[|reports| - 1])
  }

  function GroupNames(gs: seq<InflammationGrouping>): (names: seq<string>)
    ensures |names| == |gs|
    ensures forall j :: 0 <= j < |gs| ==> names[j] == gs[j].groupName
    decreases |gs|
  {
    if gs == [] then [] else GroupNames(gs[..|gs| - 1]) + [gs[|gs| - 1].groupName]
  }

  /** The groupings' inflammation lists, concatenated in order (`flatMap` of `flat`). */
  function InflammationsOf(gs: seq<InflammationGrouping>): seq<string>
    decreases |gs|
  {
    if gs == [] then [] else InflammationsOf(gs[..|gs| - 1]) + gs[|gs| - 1].inflammations
  }

  // ---------------------------------------------------------------------
  // Insertion-ordered sets (`Set.add` and `Array.from(new Set(xs))`)
  // ---------------------------------------------------------------------

  /** `set.add(x)` on a set kept in insertion order. */
  function Add(seen: seq<string>, x: string): seq<string> {
    if x in seen then seen else seen + [x]
  }

  function AddAll(seen: seq<string>, xs: seq<string>): seq<string>
    decreases |xs|
  {
    if xs == [] then seen else Add(AddAll(seen, xs[..|xs| - 1]), xs[|xs| - 1])
  }

  /** `Array.from(new Set(xs))`. */
  function Dedup(xs: seq<string>): seq<string> {
    AddAll([], xs)
  }

  predicate NoDuplicates(xs: seq<string>) {
    forall i, j :: 0 <= i < j < |xs| ==> xs[i] != xs[j]
  }

  /** The index of the first occurrence of `x` in `xs`. */
  function FirstIndex(xs: seq<string>, x: string): (i: nat)
    requires x in xs
    ensures i < |xs| && xs[i] == x
    ensures forall j :: 0 <= j < i ==> xs[j] != x
  {
    if xs[0] == x then 0 else 1 + FirstIndex(xs[1..], x)
  }

  lemma FirstIndexInPrefix(xs: seq<string>, y: string, x: string)
    requires x in xs
    ensures FirstIndex(xs + [y], x) == FirstIndex(xs, x)
  {
    var i := FirstIndex(xs, x);
    var i' := FirstIndex(xs + [y], x);
    assert forall j :: 0 <= j < |xs| ==> (xs + [y])[j] == xs[j];
  }

  /**
   * Deduplication keeps one copy of every element and nothing else, and
   * lists the elements in the order of their first occurrence.
   */
  lemma DedupSpec(xs: seq<string>)
    ensures forall x :: x in Dedup(xs) <==> x in xs
    ensures NoDuplicates(Dedup(xs))
    ensures forall i, j :: 0 <= i < j < |Dedup(xs)| ==>
      FirstIndex(xs, Dedup(xs)[i]) < FirstIndex(xs, Dedup(xs)[j])
  {
    DedupMembers(xs);
    DedupNoDuplicates(xs);
    DedupOrder(xs);
  }

  lemma {:induction false} DedupMembers(xs: seq<string>)
    ensures forall x :: x in Dedup(xs) <==> x in xs
    decreases |xs|
  {
    if xs != [] {
      var init := xs[..|xs| - 1];
      DedupMembers(init);
      assert xs == init + [xs[|xs| - 1]];
      assert Dedup(xs) == Add(Dedup(init), xs[|xs| - 1]);
    }
  }

  lemma {:induction false} DedupNoDuplicates(xs: seq<string>)
    ensures NoDuplicates(Dedup(xs))
    decreases |xs|
  {
    if xs != [] {
      var init := xs[..|xs| - 1];
      DedupNoDuplicates(init);
      assert Dedup(xs) == Add(Dedup(init), xs[|xs| - 1]);
    }
  }

  lemma {:induction false} DedupOrder(xs: seq<string>)
    ensures forall x :: x in Dedup(xs) <==> x in xs
    ensures forall i, j :: 0 <= i < j < |Dedup(xs)| ==>
      FirstIndex(xs, Dedup(xs)[i]) < FirstIndex(xs, Dedup(xs)[j])
    decreases |xs|
  {
    DedupMembers(xs);
    if xs != [] {
      var init := xs[..|xs| - 1];
      var x := xs[|xs| - 1];
      DedupOrder(init);
      DedupMembers(init);
      assert xs == init + [x];
      var d := Dedup(init);
      assert Dedup(xs) == Add(d, x);
      forall y | y in d
        ensures FirstIndex(xs, y) == FirstIndex(init, y)
      {
        FirstIndexInPrefix(init, x, y);
      }
      if x !in d {
        forall i | 0 <= i < |d|
          ensures FirstIndex(xs, d[i]) < FirstIndex(xs, x)
        {
          assert x !in init;
          assert FirstIndex(xs, x) == |init|;
        }
      }
    }
  }

  /** The model of `Array.from(new Set(xs))`: keep an element the first time it is seen. */
  method UniqueInOrder(xs: seq<string>) returns (unique: seq<string>)
    ensures unique == Dedup(xs)
  {
    unique := [];
    for i := 0 to |xs|
      invariant unique == Dedup(xs[..i])
    {
      assert xs[..i + 1][..i] == xs[..i];
      if xs[i] !in unique {
        unique := unique + [xs[i]];
      }
    }
    assert xs[..|xs|] == xs;
  }

  // ---------------------------------------------------------------------
  // Inflammation collection
  // ---------------------------------------------------------------------

  /** Recording one more match: its name is added to the set, its inflammations to the flat list. */
  lemma RecordMatch(matched: seq<InflammationGrouping>, g: InflammationGrouping)
    ensures Dedup(GroupNames(matched + [g])) == Add(Dedup(GroupNames(matched)), g.groupName)
    ensures InflammationsOf(matched + [g]) == InflammationsOf(matched) + g.inflammations
  {
    assert (matched + [g])[..|matched|] == matched;
    assert GroupNames(matched + [g]) == GroupNames(matched) + [g.groupName];
    assert (GroupNames(matched) + [g.groupName])[..|matched|] == GroupNames(matched);
  }

  /** Testing one more catalog entry appends it to the matches exactly when it matches. */
  lemma MatchingInStep(before: seq<InflammationGrouping>, catalog: seq<InflammationGrouping>, k: nat, r: IdnReport)
    requires k < |catalog|
    ensures Matches(catalog[k], r) ==>
      before + MatchingIn(catalog[..k + 1], r) == (before + MatchingIn(catalog[..k], r)) + [catalog[k]]
    ensures !Matches(catalog[k], r) ==>
      before + MatchingIn(catalog[..k + 1], r) == before + MatchingIn(catalog[..k], r)
  {
    assert catalog[..k + 1][..k] == catalog[..k];
  }

  /** The inner loop: each catalog grouping matched against one report, matches recorded in catalog order. */
  method RecordReportMatches(r: IdnReport, catalog: seq<InflammationGrouping>, ghost before: seq<InflammationGrouping>,
                             groupNames: seq<string>, flat: seq<string>)
    returns (groupNames': seq<string>, flat': seq<string>)
    requires groupNames == Dedup(GroupNames(before))
    requires flat == InflammationsOf(before)
    ensures groupNames' == Dedup(GroupNames(before + MatchingIn(catalog, r)))
    ensures flat' == InflammationsOf(before + MatchingIn(catalog, r))
  {
    groupNames', flat' := groupNames, flat;
    assert before + MatchingIn(catalog[..0], r) == before;
    for k := 0 to |catalog|
      invariant groupNames' == Dedup(GroupNames(before + MatchingIn(catalog[..k], r)))
      invariant flat' == InflammationsOf(before + MatchingIn(catalog[..k], r))
    {
      var g := catalog[k];
      MatchingInStep(before, catalog, k, r);
      if Matches(g, r) {
        RecordMatch(before + MatchingIn(catalog[..k], r), g);
        groupNames' := Add(groupNames', g.groupName);
        flat' := flat' + g.inflammations;
      }
    }
    assert catalog[..|catalog|] == catalog;
  }

  /**
   * The nested loops that fill `biologicalInflammationGroupNames` and the
   * flat inflammation list: every report, every grouping in catalog order,
   * every match recorded. Without reports (`idnReports` is `null`) both
   * come out empty.
   */
  method CollectInflammations(reports: Option<seq<IdnReport>>, catalog: seq<InflammationGrouping>)
    returns (groupNames: seq<string>, inflammations: seq<string>)
    ensures reports.None? ==> groupNames == [] && inflammations == []
    ensures reports.Some? ==> groupNames == Dedup(GroupNames(AllMatches(reports.value, catalog)))
    ensures reports.Some? ==> inflammations == Dedup(InflammationsOf(AllMatches(reports.value, catalog)))
  {
    groupNames := [];
    var flat: seq<string> := [];
    if reports.Some? {
      groupNames, flat := CollectFromReports(reports.value, catalog);
    }
    inflammations := UniqueInOrder(flat);
  }

  /**
   * The loop over the reports: the group names in first-recorded order, as
   * the `Set` keeps them, and every matched inflammation, in order.
   */
  method CollectFromReports(rs: seq<IdnReport>, catalog: seq<InflammationGrouping>)
    returns (groupNames: seq<string>, flat: seq<string>)
    ensures groupNames == Dedup(GroupNames(AllMatches(rs, catalog)))
    ensures flat == InflammationsOf(AllMatches(rs, catalog))
  {
    groupNames, flat := [], [];
    for i := 0 to |rs|
      invariant groupNames == Dedup(GroupNames(AllMatches(rs[..i], catalog)))
      invariant flat == InflammationsOf(AllMatches(rs[..i], catalog))
    {
      assert rs[..i + 1][..i] == rs[..i];
      groupNames, flat := RecordReportMatches(rs[i], catalog, AllMatches(rs[..i], catalog), groupNames, flat);
    }
    assert rs[..|rs|] == rs;
  }

  /** A grouping is recorded exactly when it is in the catalog and matches some report. */
  lemma {:induction false} AllMatchesMembers(rs: seq<IdnReport>, catalog: seq<InflammationGrouping>)
    ensures forall g :: g in AllMatches(rs, catalog) <==>
      g in catalog && exists i :: 0 <= i < |rs| && Matches(g, rs[i])
    decreases |rs|
  {
    if rs != [] {
      var init := rs[..|rs| - 1];
      var last := rs[|rs| - 1];
      AllMatchesMembers(init, catalog);
      assert AllMatches(rs, catalog) == AllMatches(init, catalog) + MatchingIn(catalog, last);
      forall g ensures g in AllMatches(rs, catalog) <==> g in catalog && exists i :: 0 <= i < |rs| && Matches(g, rs[i]) {
        MatchedBySome(rs, init, g);
      }
    }
  }

  /** Some report matches exactly when one before the last does or the last one does. */
  lemma MatchedBySome(rs: seq<IdnReport>, init: seq<IdnReport>, g: InflammationGrouping)
    requires rs != [] && init == rs[..|rs| - 1]
    ensures (exists i :: 0 <= i < |rs| && Matches(g, rs[i])) <==>
      (exists i :: 0 <= i < |init| && Matches(g, init[i])) || Matches(g, rs[|rs| - 1])
  {
    if exists i :: 0 <= i < |rs| && Matches(g, rs[i]) {
      var i :| 0 <= i < |rs| && Matches(g, rs[i]);
      if i < |init| {
        assert init[i] == rs[i];
      }
    }
    if exists i :: 0 <= i < |init| && Matches(g, init[i]) {
      var i :| 0 <= i < |init| && Matches(g, init[i]);
      assert init[i] == rs[i];
    }
  }

  lemma {:induction false} InflammationsOfMembers(gs: seq<InflammationGrouping>)
    ensures forall x :: x in InflammationsOf(gs) <==> exists g :: g in gs && x in g.inflammations
    decreases |gs|
  {
    if gs != [] {
      var init := gs[..|gs| - 1];
      InflammationsOfMembers(init);
      assert forall g :: g in gs <==> g in init || g == gs[|gs| - 1] by {
        assert gs == init + [gs[|gs| - 1]];
      }
    }
  }

  /**
   * The group-name set holds the name of every grouping that matches some
   * report (every match, not only the first), once each, and no other name.
   */
  lemma CollectedGroupNames(rs: seq<IdnReport>, catalog: seq<InflammationGrouping>)
    ensures NoDuplicates(Dedup(GroupNames(AllMatches(rs, catalog))))
    ensures forall x :: x in Dedup(GroupNames(AllMatches(rs, catalog))) <==>
      exists k, i :: 0 <= k < |catalog| && 0 <= i < |rs| && Matches(catalog[k], rs[i]) && catalog[k].groupName == x
  {
    var gs := AllMatches(rs, catalog);
    DedupSpec(GroupNames(gs));
    AllMatchesMembers(rs, catalog);
    forall x | x in GroupNames(gs)
      ensures exists k, i :: 0 <= k < |catalog| && 0 <= i < |rs| && Matches(catalog[k], rs[i]) && catalog[k].groupName == x
    {
      var j :| 0 <= j < |gs| && GroupNames(gs)[j] == x;
      assert gs[j] in gs;
      var i :| 0 <= i < |rs| && Matches(gs[j], rs[i]);
      var k :| 0 <= k < |catalog| && catalog[k] == gs[j];
    }
    forall k, i | 0 <= k < |catalog| && 0 <= i < |rs| && Matches(catalog[k], rs[i])
      ensures catalog[k].groupName in GroupNames(gs)
    {
      assert catalog[k] in gs;
      var j :| 0 <= j < |gs| && gs[j] == catalog[k];
      assert GroupNames(gs)[j] == catalog[k].groupName;
    }
  }

  /**
   * The inflammation list is the union of the inflammations of every
   * matching grouping, once each; every entry names a condition of some
   * report.
   */
  lemma CollectedInflammations(rs: seq<IdnReport>, catalog: seq<InflammationGrouping>)
    ensures NoDuplicates(Dedup(InflammationsOf(AllMatches(rs, catalog))))
    ensures forall x :: x in Dedup(InflammationsOf(AllMatches(rs, catalog))) <==>
      exists k, i :: 0 <= k < |catalog| && 0 <= i < |rs| && Matches(catalog[k], rs[i]) && x in catalog[k].inflammations
    ensures forall x :: x in Dedup(InflammationsOf(AllMatches(rs, catalog))) ==>
      exists i :: 0 <= i < |rs| && Some(x) in ConditionNames(rs[i])
  {
    var gs := AllMatches(rs, catalog);
    DedupSpec(InflammationsOf(gs));
    AllMatchesMembers(rs, catalog);
    InflammationsOfMembers(gs);
    forall x | x in InflammationsOf(gs)
      ensures exists k, i :: 0 <= k < |catalog| && 0 <= i < |rs| && Matches(catalog[k], rs[i]) && x in catalog[k].inflammations
      ensures exists i :: 0 <= i < |rs| && Some(x) in ConditionNames(rs[i])
    {
      var g :| g in gs && x in g.inflammations;
      var i :| 0 <= i < |rs| && Matches(g, rs[i]);
      var k :| 0 <= k < |catalog| && catalog[k] == g;
      var m :| 0 <= m < |g.inflammations| && g.inflammations[m] == x;
      assert Some(g.inflammations[m]) in ConditionNames(rs[i]);
    }
  }

  // ---------------------------------------------------------------------
  // Per-report averages, sorted by scan type
  // ---------------------------------------------------------------------

  /** A JavaScript number as far as the averages need one: a finite value or `NaN`. */
  datatype Num = Finite(value: real) | NaN

  function Plus(a: Num, b: Num): Num {
    if a.Finite? && b.Finite? then Finite(a.value + b.value) else NaN
  }

  function Pow10(n: nat): (p: nat)
    ensures p >= 1
  {
    if n == 0 then 1 else 10 * Pow10(n - 1)
  }

  /**
   * An unsigned decimal literal: digits, optionally a point and more
   * digits, with at least one digit in all (`5`, `5.`, `.5`, `5.25`).
   */
  function UnsignedDecimal(b: string): Option<real> {
    var whole := DigitRun(b);
    var rest := b[|whole|..];
    if rest == [] then
      if whole == [] then None else Some(DigitsValue(whole) as real)
    else if rest[0] == '.' then
      var frac := DigitRun(rest[1..]);
      if 1 + |frac| == |rest| && (whole != [] || frac != []) then
        Some(DigitsValue(whole) as real + DigitsValue(frac) as real / Pow10(|frac|) as real)
      else None
    else None
  }

  /** `Number(s)` on a string: surrounding whitespace ignored, empty text 0, a signed decimal literal its value. */
  function NumberValue(s: string): Num {
    var t := Trim(s);
    if t == [] then Finite(0.0)
    else
      var negative := t[0] == '-';
      var body := if t[0] == '-' || t[0] == '+' then t[1..] else t;
      match UnsignedDecimal(body)
      case Some(v) => Finite(if negative then -v else v)
      case None => NaN
  }

  /** `s.replace("%", "")`: only the first `%` goes. */
  function RemoveFirstPercent(s: string): (r: string)
    ensures '%' !in s ==> r == s
    ensures '%' in s ==> exists i :: 0 <= i < |s| && s[i] == '%' && '%' !in s[..i] && r == s[..i] + s[i + 1..]
  {
    CharOccurs(s, '%');
    match IndexOf(s, "%")
    case Some(i) =>
      assert '%' !in s[..i] by {
        forall j | 0 <= j < i ensures s[..i][j] != '%' {
          assert !OccursAt(s, "%", j);
        }
      }
      s[..i] + s[i + 1..]
    case None => s
  }

  /** `item.percentage ? Number(item.percentage.replace("%", "")) : 0`: unset and empty count as 0. */
  function PercentNumber(p: Option<string>): Num {
    if p.None? || p.value == [] then Finite(0.0) else NumberValue(RemoveFirstPercent(p.value))
  }

  /** The scale reduce: unset scales count as 0. */
  function TotalScale(cs: seq<Condition>): int
    decreases |cs|
  {
    if cs == [] then 0 else TotalScale(cs[..|cs| - 1]) + cs[|cs| - 1].scale.GetOr(0)
  }

  /** A `reduce` adding up `f` over `xs` from 0; one `NaN` makes the sum `NaN`. */
  function Sum<T>(xs: seq<T>, f: T -> Num): Num
    decreases |xs|
  {
    if xs == [] then Finite(0.0) else Plus(Sum(xs[..|xs| - 1], f), f(xs[|xs| - 1]))
  }

  /** What one condition adds to the percentage total. */
  function PercentOf(c: Condition): Num {
    PercentNumber(c.percentage)
  }

  /** The percentage reduce. */
  function TotalPercentage(cs: seq<Condition>): Num {
    Sum(cs, PercentOf)
  }

  /** A total divided by the number of conditions of the whole report; an empty report gives 0 / 0. */
  function Mean(total: Num, n: nat): Num {
    if n == 0 || total.NaN? then NaN else Finite(total.value / n as real)
  }

  /** What a contributing report adds to the table. */
  datatype ScanTypeAverage = ScanTypeAverage(scanType: int, avgScale: Num, avgPercentage: Num)

  function Averages(r: IdnReport): ScanTypeAverage {
    ScanTypeAverage(
      r.scanType,
      Mean(Finite(TotalScale(r.report) as real), |r.report|),
      Mean(TotalPercentage(r.report), |r.report|))
  }

  /** The loop over the catalog in the `map` callback: the index of the first matching grouping. */
  function FirstMatching(catalog: seq<InflammationGrouping>, r: IdnReport): (k: Option<nat>)
    ensures k.Some? ==> k.value < |catalog| && Matches(catalog[k.value], r)
    ensures k.Some? ==> forall j :: 0 <= j < k.value ==> !Matches(catalog[j], r)
    ensures k.None? ==> forall j :: 0 <= j < |catalog| ==> !Matches(catalog[j], r)
    decreases |catalog|
  {
    if catalog == [] then None
    else if Matches(catalog[0], r) then Some(0)
    else match FirstMatching(catalog[1..], r)
      case None => None
      case Some(k) => Some(k + 1)
  }

  /** The `map` callback: the averages when a grouping matches, `undefined` otherwise. */
  function Entry(catalog: seq<InflammationGrouping>, r: IdnReport): Option<ScanTypeAverage> {
    match FirstMatching(catalog, r)
    case Some(_) => Some(Averages(r))
    case None => None
  }

  /** `map` then `filter(Boolean)`: the entries of the reports that contribute, in report order. */
  function Entries(rs: seq<IdnReport>, catalog: seq<InflammationGrouping>): seq<ScanTypeAverage> {
    Present(rs, Callback(catalog))
  }

  /** The `map` callback over a fixed catalog. */
  function Callback(catalog: seq<InflammationGrouping>): IdnReport -> Option<ScanTypeAverage> {
    r => Entry(catalog, r)
  }

  predicate SortedByScanType(xs: seq<ScanTypeAverage>) {
    forall i, j :: 0 <= i < j < |xs| ==> xs[i].scanType <= xs[j].scanType
  }

  /** Insertion after every entry whose scan type is not greater: how a stable sort places a later element. */
  function InsertByScanType(sorted: seq<ScanTypeAverage>, x: ScanTypeAverage): seq<ScanTypeAverage>
    decreases |sorted|
  {
    if sorted == [] then [x]
    else if x.scanType < sorted[0].scanType then [x] + sorted
    else [sorted[0]] + InsertByScanType(sorted[1..], x)
  }

  /** `sort` with the comparator that orders by scan type (-1, 1, or 0 for equal ones), stable as `Array.prototype.sort` is. */
  function SortByScanType(xs: seq<ScanTypeAverage>): seq<ScanTypeAverage>
    decreases |xs|
  {
    if xs == [] then [] else InsertByScanType(SortByScanType(xs[..|xs| - 1]), xs[|xs| - 1])
  }

  /** `scanTypes`: `undefined` without reports. */
  function ScanTypes(reports: Option<seq<IdnReport>>, catalog: seq<InflammationGrouping>): Option<seq<ScanTypeAverage>> {
    match reports
    case None => None
    case Some(rs) => Some(SortByScanType(Entries(rs, catalog)))
  }

  /** The entries of one scan type, in order. */
  function OfScanType(xs: seq<ScanTypeAverage>, t: int): seq<ScanTypeAverage>
    decreases |xs|
  {
    if xs == [] then []
    else (if xs[0].scanType == t then [xs[0]] else []) + OfScanType(xs[1..], t)
  }

  lemma {:induction false} OfScanTypeBelow(xs: seq<ScanTypeAverage>, t: int)
    requires SortedByScanType(xs) && xs != [] && t < xs[0].scanType
    ensures OfScanType(xs, t) == []
    decreases |xs|
  {
    if |xs| > 1 {
      assert xs[1..][0] == xs[1];
      OfScanTypeBelow(xs[1..], t);
    }
  }

  lemma {:induction false} InsertMultiset(sorted: seq<ScanTypeAverage>, x: ScanTypeAverage)
    ensures multiset(InsertByScanType(sorted, x)) == multiset(sorted) + multiset{x}
    decreases |sorted|
  {
    if sorted != [] && x.scanType >= sorted[0].scanType {
      InsertMultiset(sorted[1..], x);
      assert sorted == [sorted[0]] + sorted[1..];
    }
  }

  /** The inserted entry goes first exactly when it sorts before the current first entry. */
  lemma InsertHead(sorted: seq<ScanTypeAverage>, x: ScanTypeAverage)
    ensures InsertByScanType(sorted, x)[0] ==
      if sorted == [] || x.scanType < sorted[0].scanType then x else sorted[0]
  {
  }

  lemma {:induction false} InsertSorted(sorted: seq<ScanTypeAverage>, x: ScanTypeAverage)
    requires SortedByScanType(sorted)
    ensures SortedByScanType(InsertByScanType(sorted, x))
    decreases |sorted|
  {
    if sorted == [] {
    } else if x.scanType < sorted[0].scanType {
      var out := [x] + sorted;
      forall i, j | 0 <= i < j < |out| ensures out[i].scanType <= out[j].scanType {
        if i == 0 {
          assert out[j] == sorted[j - 1];
        } else {
          assert out[i] == sorted[i - 1] && out[j] == sorted[j - 1];
        }
      }
    } else {
      var tail := sorted[1..];
      assert SortedByScanType(tail) by {
        forall i, j | 0 <= i < j < |tail| ensures tail[i].scanType <= tail[j].scanType {
          assert tail[i] == sorted[i + 1] && tail[j] == sorted[j + 1];
        }
      }
      InsertSorted(tail, x);
      InsertHead(tail, x);
      var rest := InsertByScanType(tail, x);
      assert sorted[0].scanType <= rest[0].scanType by {
        if tail != [] {
          assert tail[0] == sorted[1];
        }
      }
      var out := [sorted[0]] + rest;
      forall i, j | 0 <= i < j < |out| ensures out[i].scanType <= out[j].scanType {
        assert out[j] == rest[j - 1];
        if i == 0 {
          assert rest[0].scanType <= rest[j - 1].scanType;
        } else {
          assert out[i] == rest[i - 1];
        }
      }
    }
  }

  lemma {:induction false} InsertStable(sorted: seq<ScanTypeAverage>, x: ScanTypeAverage, t: int)
    requires SortedByScanType(sorted)
    ensures OfScanType(InsertByScanType(sorted, x), t) == OfScanType(sorted, t) + (if x.scanType == t then [x] else [])
    decreases |sorted|
  {
    if sorted == [] {
    } else if x.scanType < sorted[0].scanType {
      assert ([x] + sorted)[1..] == sorted;
      if x.scanType == t {
        OfScanTypeBelow(sorted, t);
      }
    } else {
      var rest := InsertByScanType(sorted[1..], x);
      InsertStable(sorted[1..], x, t);
      assert ([sorted[0]] + rest)[1..] == rest;
    }
  }

  /**
   * The sort puts the entries in ascending scan-type order, loses and adds
   * none, and keeps entries of equal scan type in their input order. These
   * three facts leave exactly one possible result.
   */
  lemma {:induction false} SortSpec(xs: seq<ScanTypeAverage>)
    ensures SortedByScanType(SortByScanType(xs))
    ensures multiset(SortByScanType(xs)) == multiset(xs)
    ensures forall t :: OfScanType(SortByScanType(xs), t) == OfScanType(xs, t)
  {
    SortSorted(xs);
    SortPermutes(xs);
    forall t ensures OfScanType(SortByScanType(xs), t) == OfScanType(xs, t) {
      SortStable(xs, t);
    }
  }

  lemma {:induction false} SortSorted(xs: seq<ScanTypeAverage>)
    ensures SortedByScanType(SortByScanType(xs))
    decreases |xs|
  {
    if xs != [] {
      SortSorted(xs[..|xs| - 1]);
      InsertSorted(SortByScanType(xs[..|xs| - 1]), xs[|xs| - 1]);
    }
  }

  lemma {:induction false} SortPermutes(xs: seq<ScanTypeAverage>)
    ensures multiset(SortByScanType(xs)) == multiset(xs)
    decreases |xs|
  {
    if xs != [] {
      var init := xs[..|xs| - 1];
      SortPermutes(init);
      InsertMultiset(SortByScanType(init), xs[|xs| - 1]);
      assert xs == init + [xs[|xs| - 1]];
    }
  }

  lemma {:induction false} SortStable(xs: seq<ScanTypeAverage>, t: int)
    ensures OfScanType(SortByScanType(xs), t) == OfScanType(xs, t)
    decreases |xs|
  {
    if xs != [] {
      var init := xs[..|xs| - 1];
      var x := xs[|xs| - 1];
      SortStable(init, t);
      SortSorted(init);
      InsertStable(SortByScanType(init), x, t);
      assert xs == init + [x];
      OfScanTypeAppend(init, [x], t);
    }
  }

  lemma {:induction false} OfScanTypeAppend(a: seq<ScanTypeAverage>, b: seq<ScanTypeAverage>, t: int)
    ensures OfScanType(a + b, t) == OfScanType(a, t) + OfScanType(b, t)
    decreases |a|
  {
    ConsAppend(a, b);
    if a != [] {
      OfScanTypeAppend(a[1..], b, t);
    }
  }

  /** A report contributes exactly when some grouping of the catalog matches it. */
  lemma EntryIffMatch(catalog: seq<InflammationGrouping>, r: IdnReport)
    ensures Entry(catalog, r).Some? <==> exists k :: 0 <= k < |catalog| && Matches(catalog[k], r)
    ensures Entry(catalog, r).Some? ==> Entry(catalog, r).value == Averages(r)
  {
  }

  lemma {:induction false} EntriesLength(rs: seq<IdnReport>, catalog: seq<InflammationGrouping>)
    ensures |Entries(rs, catalog)| <= |rs|
    decreases |rs|
  {
    if rs != [] {
      EntriesLength(rs[..|rs| - 1], catalog);
    }
  }

  lemma {:induction false} EntriesFromReports(rs: seq<IdnReport>, catalog: seq<InflammationGrouping>)
    ensures forall e :: e in Entries(rs, catalog) ==> exists i :: 0 <= i < |rs| && Entry(catalog, rs[i]) == Some(e)
    decreases |rs|
  {
    if rs != [] {
      var init := rs[..|rs| - 1];
      EntriesFromReports(init, catalog);
      var last := Entry(catalog, rs[|rs| - 1]);
      forall e | e in Entries(rs, catalog)
        ensures exists i :: 0 <= i < |rs| && Entry(catalog, rs[i]) == Some(e)
      {
        if e in Entries(init, catalog) {
          var i :| 0 <= i < |init| && Entry(catalog, init[i]) == Some(e);
          assert rs[i] == init[i];
        } else {
          assert Entry(catalog, rs[|rs| - 1]) == Some(e);
        }
      }
    }
  }

  lemma {:induction false} ReportsToEntries(rs: seq<IdnReport>, catalog: seq<InflammationGrouping>)
    ensures forall i :: 0 <= i < |rs| && Entry(catalog, rs[i]).Some? ==> Entry(catalog, rs[i]).value in Entries(rs, catalog)
    decreases |rs|
  {
    if rs != [] {
      var init := rs[..|rs| - 1];
      ReportsToEntries(init, catalog);
      forall i | 0 <= i < |rs| && Entry(catalog, rs[i]).Some?
        ensures Entry(catalog, rs[i]).value in Entries(rs, catalog)
      {
        if i < |init| {
          assert rs[i] == init[i];
          assert Entry(catalog, rs[i]).value in Entries(init, catalog);
        }
      }
    }
  }

  /**
   * Each report yields at most one entry, its own averages, and only when
   * some grouping matches it; the entries follow the order of their reports.
   */
  lemma EntriesSpec(rs: seq<IdnReport>, catalog: seq<InflammationGrouping>)
    ensures |Entries(rs, catalog)| <= |rs|
    ensures forall e :: e in Entries(rs, catalog) <==>
      exists i :: 0 <= i < |rs| && Entry(catalog, rs[i]) == Some(e)
    ensures exists idx :: PresentAt(rs, Callback(catalog), Entries(rs, catalog), idx)
  {
    EntriesLength(rs, catalog);
    EntriesFromReports(rs, catalog);
    ReportsToEntries(rs, catalog);
    var idx := PresentIndexed(rs, Callback(catalog));
  }

  /**
   * `scanTypes` is absent without reports; otherwise it holds the entries of
   * the contributing reports, sorted by scan type, equal scan types in
   * report order.
   */
  lemma ScanTypesSpec(reports: Option<seq<IdnReport>>, catalog: seq<InflammationGrouping>)
    ensures ScanTypes(reports, catalog).None? <==> reports.None?
    ensures reports.Some? ==>
      var out := ScanTypes(reports, catalog).value;
      && SortedByScanType(out)
      && multiset(out) == multiset(Entries(reports.value, catalog))
      && (forall t :: OfScanType(out, t) == OfScanType(Entries(reports.value, catalog), t))
  {
    if reports.Some? {
      SortSpec(Entries(reports.value, catalog));
    }
  }

  // ---------------------------------------------------------------------
  // Percentages as the parser produces them
  // ---------------------------------------------------------------------

  lemma {:induction false} DigitRunOfDigits(ds: string, tail: string)
    requires AllDigits(ds)
    requires tail != [] ==> !IsDigit(tail[0])
    ensures DigitRun(ds + tail) == ds
    decreases |ds|
  {
    ConsAppend(ds, tail);
    if ds != [] {
      DigitRunOfDigits(ds[1..], tail);
      assert [ds[0]] + ds[1..] == ds;
    }
  }

  /** The numeral of a parsed percentage reads as a number. */
  lemma DecimalNumeralIsNumber(b: string)
    requires DecimalNumeral(b)
    ensures UnsignedDecimal(b).Some?
  {
    match IndexOf(b, ".")
    case None =>
      DigitRunOfDigits(b, []);
      assert b + [] == b;
    case Some(i) =>
      var whole := b[..i];
      var frac := b[i + 1..];
      assert b == whole + ([b[i]] + frac);
      DigitRunOfDigits(whole, [b[i]] + frac);
      assert b[|whole|..] == [b[i]] + frac;
      assert ([b[i]] + frac)[1..] == frac;
      DigitRunOfDigits(frac, []);
      assert frac + [] == frac;
  }

  /**
   * A percentage the parser produced always converts to a finite number:
   * the `NaN` path of `Number` is unreachable for parsed reports.
   */
  lemma ParsedPercentIsFinite(t: string)
    requires PercentText(t)
    ensures PercentNumber(Some(t)).Finite?
  {
    var b := t[..|t| - 1];
    assert t == b + "%";
    DecimalNumeralChars(b);
    RemoveTrailingPercent(b);
    DecimalNumeralIsNumber(b);
    UnsignedNumber(b);
  }

  /** Text starting and ending with a digit that reads as an unsigned decimal is that number. */
  lemma UnsignedNumber(b: string)
    requires b != [] && IsDigit(b[0]) && IsDigit(b[|b| - 1]) && UnsignedDecimal(b).Some?
    ensures NumberValue(b) == Finite(UnsignedDecimal(b).value)
  {
    TrimmedIsFixed(b);
  }

  /** A `%` after text without one is the `%` that goes. */
  lemma RemoveTrailingPercent(b: string)
    requires '%' !in b
    ensures RemoveFirstPercent(b + "%") == b
  {
    var t := b + "%";
    var i :| 0 <= i < |t| && t[i] == '%' && '%' !in t[..i] && RemoveFirstPercent(t) == t[..i] + t[i + 1..];
    assert t[..|b|] == b && t[|b| + 1..] == [];
  }

  lemma DecimalNumeralChars(b: string)
    requires DecimalNumeral(b)
    ensures b != [] && IsDigit(b[0]) && IsDigit(b[|b| - 1])
    ensures forall j :: 0 <= j < |b| ==> IsDigit(b[j]) || b[j] == '.'
  {
    match IndexOf(b, ".")
    case None =>
    case Some(i) =>
      assert b[i..i + 1] == ".";
      forall j | 0 <= j < |b| ensures IsDigit(b[j]) || b[j] == '.' {
        if j < i {
          assert b[j] == b[..i][j];
        } else if j > i {
          assert b[j] == b[i + 1..][j - i - 1];
        }
      }
      assert b[0] == b[..i][0];
      assert b[|b| - 1] == b[i + 1..][|b| - i - 2];
  }

  lemma {:induction false} TotalPercentageFinite(cs: seq<Condition>)
    requires forall j :: 0 <= j < |cs| ==> WellFormed(cs[j])
    ensures TotalPercentage(cs).Finite?
    decreases |cs|
  {
    if cs != [] {
      TotalPercentageFinite(cs[..|cs| - 1]);
      var p := cs[|cs| - 1].percentage;
      if p.Some? && p.value != [] {
        ParsedPercentIsFinite(p.value);
      }
    }
  }

  /** For a report the parser produced, both averages are numbers unless the report is empty. */
  lemma ParsedAveragesFinite(lines: seq<string>)
    requires |Scan(lines).report| > 0
    ensures Averages(Scan(lines)).avgScale.Finite?
    ensures Averages(Scan(lines)).avgPercentage.Finite?
  {
    var r := Scan(lines);
    ScanWellFormed(lines);
    TotalPercentageFinite(r.report);
    AveragesOfFiniteTotal(r);
  }

  lemma AveragesOfFiniteTotal(r: IdnReport)
    requires |r.report| > 0 && TotalPercentage(r.report).Finite?
    ensures Averages(r).avgScale.Finite? && Averages(r).avgPercentage.Finite?
  {
  }

  /** Dividing by a positive count and multiplying back gives the total. */
  lemma DivTimes(x: real, n: nat)
    requires n > 0
    ensures x / n as real * n as real == x
  {
  }

  /** A mean is a number exactly when there is something to divide by and the total is a number; times the count it gives the total back. */
  lemma MeanSpec(total: Num, n: nat)
    ensures Mean(total, n).Finite? <==> n > 0 && total.Finite?
    ensures Mean(total, n).Finite? ==> Mean(total, n).value * n as real == total.value
  {
    if n > 0 && total.Finite? {
      DivTimes(total.value, n);
    }
  }

  /**
   * The entry of a report: its scan type, and the scale and percentage
   * totals each divided by the number of its conditions.
   */
  lemma AveragesSpec(r: IdnReport)
    ensures Averages(r).scanType == r.scanType
    ensures Averages(r).avgScale.Finite? <==> |r.report| > 0
    ensures Averages(r).avgScale.Finite? ==> Averages(r).avgScale.value * |r.report| as real == TotalScale(r.report) as real
    ensures Averages(r).avgPercentage.Finite? <==> |r.report| > 0 && TotalPercentage(r.report).Finite?
    ensures Averages(r).avgPercentage.Finite? ==>
      Averages(r).avgPercentage.value * |r.report| as real == TotalPercentage(r.report).value
  {
    if |r.report| > 0 {
      DivTimes(TotalScale(r.report) as real, |r.report|);
      if TotalPercentage(r.report).Finite? {
        DivTimes(TotalPercentage(r.report).value, |r.report|);
      }
    }
  }

  /** The scale total of a concatenation is the sum of the totals of its parts. */
  lemma {:induction false} TotalScaleAppend(a: seq<Condition>, b: seq<Condition>)
    ensures TotalScale(a + b) == TotalScale(a) + TotalScale(b)
    decreases |b|
  {
    if b != [] {
      assert (a + b)[..|a + b| - 1] == a + b[..|b| - 1] && (a + b)[|a + b| - 1] == b[|b| - 1];
      TotalScaleAppend(a, b[..|b| - 1]);
    } else {
      assert a + b == a;
    }
  }

  /** The sum over a concatenation is the sum of the sums over its parts. */
  lemma {:induction false} SumAppend<T>(a: seq<T>, b: seq<T>, f: T -> Num)
    ensures Sum(a + b, f) == Plus(Sum(a, f), Sum(b, f))
    decreases |b|
  {
    if b != [] {
      assert (a + b)[..|a + b| - 1] == a + b[..|b| - 1] && (a + b)[|a + b| - 1] == b[|b| - 1];
      SumAppend(a, b[..|b| - 1], f);
    } else {
      assert a + b == a;
    }
  }

  /** A sum is `NaN` exactly when one of its terms is. */
  lemma {:induction false} SumNaN<T>(xs: seq<T>, f: T -> Num)
    ensures Sum(xs, f).NaN? <==> exists j :: 0 <= j < |xs| && f(xs[j]).NaN?
    decreases |xs|
  {
    if xs != [] {
      var init := xs[..|xs| - 1];
      SumNaN(init, f);
      forall j | 0 <= j < |init| ensures xs[j] == init[j] {
      }
    }
  }

  /** The percentage total of a concatenation is the sum of the totals of its parts. */
  lemma TotalPercentageAppend(a: seq<Condition>, b: seq<Condition>)
    ensures TotalPercentage(a + b) == Plus(TotalPercentage(a), TotalPercentage(b))
  {
    SumAppend(a, b, PercentOf);
  }

  /** The percentage total is `NaN` exactly when some condition's percentage converts to `NaN`. */
  lemma TotalPercentageNaN(cs: seq<Condition>)
    ensures TotalPercentage(cs).NaN? <==> exists j :: 0 <= j < |cs| && PercentNumber(cs[j].percentage).NaN?
  {
    SumNaN(cs, PercentOf);
  }

  /** `Number` of a string of digits is the number those digits write. */
  lemma NumberValueOfDigits(ds: string)
    requires ds != [] && AllDigits(ds)
    ensures NumberValue(ds) == Finite(DigitsValue(ds) as real)
  {
    TrimmedIsFixed(ds);
    DigitRunOfDigits(ds, []);
    assert ds + [] == ds;
  }

  /** A whole-number percentage converts to the number before its `%`. */
  lemma PercentNumberOfDigits(ds: string)
    requires ds != [] && AllDigits(ds)
    ensures PercentNumber(Some(ds + "%")) == Finite(DigitsValue(ds) as real)
  {
    assert '%' !in ds;
    RemoveTrailingPercent(ds);
    NumberValueOfDigits(ds);
  }

  /** Two conditions, at 10 with 50% and at 20 with 30%: averages 15 and 40. */
  lemma AveragesExample()
    ensures
      var c1 := Condition(Some("A"), Some(10), Some("50%"), None, None);
      var c2 := Condition(Some("B"), Some(20), Some("30%"), None, None);
      Averages(IdnReport([c1, c2], 2)) == ScanTypeAverage(2, Finite(15.0), Finite(40.0))
  {
    var c1 := Condition(Some("A"), Some(10), Some("50%"), None, None);
    var c2 := Condition(Some("B"), Some(20), Some("30%"), None, None);
    var cs := [c1, c2];
    assert cs[..1] == [c1] && [c1][..0] == [];
    assert TotalScale(cs) == 30 by {
      assert TotalScale([c1]) == 10;
    }
    assert TotalPercentage(cs) == Finite(80.0) by {
      ExamplePercents();
      assert PercentOf(c1) == Finite(50.0) && PercentOf(c2) == Finite(30.0);
      assert Sum([c1], PercentOf) == Finite(50.0);
    }
  }

  /** The two percentages of the example above, parsed. */
  lemma ExamplePercents()
    ensures PercentNumber(Some("50%")) == Finite(50.0)
    ensures PercentNumber(Some("30%")) == Finite(30.0)
  {
    TwoDigitValue('5', '0');
    TwoDigitValue('3', '0');
    PercentNumberOfDigits("50");
    PercentNumberOfDigits("30");
    assert "50" + "%" == "50%" && "30" + "%" == "30%";
  }

  /** `Number.parseInt` of a two-digit string. */
  lemma TwoDigitValue(a: char, b: char)
    requires IsDigit(a) && IsDigit(b)
    ensures DigitsValue([a, b]) == (a as int - '0' as int) * 10 + (b as int - '0' as int)
  {
    assert [a][..0] == [];
    assert DigitsValue([a]) == a as int - '0' as int;
    assert [a, b][..1] == [a];
  }

  // ---------------------------------------------------------------------
  // Leadership dynamics: two per table row pair
  // ---------------------------------------------------------------------

  datatype LeadershipDynamic = LeadershipDynamic(title: string, titleDescription: string, value: string)

  /**
   * A table cell, by what it shows: the heading or the value of a dynamic,
   * or nothing when the pair has no second dynamic.
   */
  datatype Cell = HeadingCell(of: LeadershipDynamic) | ValueCell(of: LeadershipDynamic) | BlankCell

  /** A two-cell table row. */
  datatype Row = Row(left: Cell, right: Cell)

  /** The text a cell shows: `${title} : ${title_description}`, the value, or `""`. */
  function CellText(c: Cell): string {
    match c
    case HeadingCell(d) => d.title + " : " + d.titleDescription
    case ValueCell(d) => d.value
    case BlankCell => ""
  }

  /** The heading row of the pair at `i`: both headings, the right cell blank without a second dynamic. */
  function HeadingRow(ds: seq<LeadershipDynamic>, i: nat): Row
    requires i < |ds|
  {
    Row(HeadingCell(ds[i]), if i + 1 < |ds| then HeadingCell(ds[i + 1]) else BlankCell)
  }

  /** The value row of the pair at `i`, the right cell blank without a second dynamic. */
  function ValueRow(ds: seq<LeadershipDynamic>, i: nat): Row
    requires i < |ds|
  {
    Row(ValueCell(ds[i]), if i + 1 < |ds| then ValueCell(ds[i + 1]) else BlankCell)
  }

  /** The rows of the first `n` pairs, a heading row and a value row each. */
  function RowsUpTo(ds: seq<LeadershipDynamic>, n: nat): (rows: seq<Row>)
    requires 2 * n <= |ds| + 1
    ensures |rows| == 2 * n
  {
    if n == 0 then [] else RowsUpTo(ds, n - 1) + [HeadingRow(ds, 2 * n - 2), ValueRow(ds, 2 * n - 2)]
  }

  /** The rows of every started pair: the table the loop builds. */
  function LeadershipTable(ds: seq<LeadershipDynamic>): seq<Row> {
    RowsUpTo(ds, (|ds| + 1) / 2)
  }

  /** The `for (let i = 0; i < n; i = i + 2)` loop that pushes two rows per step. */
  method LeadershipRows(ds: seq<LeadershipDynamic>) returns (rows: seq<Row>)
    ensures rows == LeadershipTable(ds)
  {
    rows := [];
    var i := 0;
    ghost var pairs := 0;
    while i < |ds|
      invariant i == 2 * pairs <= |ds| + 1
      invariant pairs == 0 || 2 * pairs - 2 < |ds|
      invariant rows == RowsUpTo(ds, pairs)
      decreases |ds| - i
    {
      var first := ds[i];
      var second := if i + 1 < |ds| then Some(ds[i + 1]) else None;
      var headings := Row(HeadingCell(first), if second.Some? then HeadingCell(second.value) else BlankCell);
      var values := Row(ValueCell(first), if second.Some? then ValueCell(second.value) else BlankCell);
      RowsUpToNext(ds, pairs);
      rows := rows + [headings, values];
      i := i + 2;
      pairs := pairs + 1;
    }
    assert pairs == (|ds| + 1) / 2;
  }

  /** One more pair adds its heading row and its value row at the end. */
  lemma RowsUpToNext(ds: seq<LeadershipDynamic>, n: nat)
    requires 2 * n < |ds|
    ensures RowsUpTo(ds, n + 1) == RowsUpTo(ds, n) + [HeadingRow(ds, 2 * n), ValueRow(ds, 2 * n)]
  {
  }

  /** Later pairs leave the rows of earlier pairs in place. */
  lemma {:induction false} RowsUpToPair(ds: seq<LeadershipDynamic>, n: nat, p: nat)
    requires 2 * n <= |ds| + 1 && p < n
    ensures RowsUpTo(ds, n)[2 * p] == HeadingRow(ds, 2 * p)
    ensures RowsUpTo(ds, n)[2 * p + 1] == ValueRow(ds, 2 * p)
    decreases n
  {
    RowsUpToNext(ds, n - 1);
    if p < n - 1 {
      RowsUpToPair(ds, n - 1, p);
    }
  }

  lemma TableLength(ds: seq<LeadershipDynamic>)
    ensures |LeadershipTable(ds)| == |ds| + |ds| % 2
  {
  }

  /**
   * The table the loop builds: two rows per started pair of dynamics; pair
   * `p` shows dynamic `2p` in the left column (heading above value) and
   * dynamic `2p + 1` in the right column, or blank cells when the list ends
   * at `2p`. Every dynamic appears, in order.
   */
  lemma LeadershipRowsSpec(ds: seq<LeadershipDynamic>)
    ensures |LeadershipTable(ds)| == |ds| + |ds| % 2
    ensures forall p :: 0 <= p && 2 * p < |ds| ==>
      LeadershipTable(ds)[2 * p] == HeadingRow(ds, 2 * p) && LeadershipTable(ds)[2 * p + 1] == ValueRow(ds, 2 * p)
  {
    TableLength(ds);
    forall p | 0 <= p && 2 * p < |ds|
      ensures LeadershipTable(ds)[2 * p] == HeadingRow(ds, 2 * p)
      ensures LeadershipTable(ds)[2 * p + 1] == ValueRow(ds, 2 * p)
    {
      RowsUpToPair(ds, (|ds| + 1) / 2, p);
    }
  }

  /** The left cell for an even position in the pair, the right cell for an odd one. */
  function Column(row: Row, side: nat): Cell {
    if side == 0 then row.left else row.right
  }

  /**
   * What the table shows: dynamic `k` sits in pair `k / 2`, on the side
   * `k % 2`; its heading row shows `title : titleDescription` there and its
   * value row the value. A lone last dynamic leaves both right cells empty.
   */
  lemma TableTexts(ds: seq<LeadershipDynamic>)
    ensures forall k :: 0 <= k < |ds| ==>
      && CellText(Column(LeadershipTable(ds)[2 * (k / 2)], k % 2)) == ds[k].title + " : " + ds[k].titleDescription
      && CellText(Column(LeadershipTable(ds)[2 * (k / 2) + 1], k % 2)) == ds[k].value
    ensures |ds| % 2 == 1 ==>
      CellText(LeadershipTable(ds)[|ds| - 1].right) == "" && CellText(LeadershipTable(ds)[|ds|].right) == ""
  {
    LeadershipRowsSpec(ds);
    forall k | 0 <= k < |ds|
      ensures CellText(Column(LeadershipTable(ds)[2 * (k / 2)], k % 2)) == ds[k].title + " : " + ds[k].titleDescription
      ensures CellText(Column(LeadershipTable(ds)[2 * (k / 2) + 1], k % 2)) == ds[k].value
    {
      var p := k / 2;
      assert 2 * p < |ds|;
      assert k == 2 * p || k == 2 * p + 1;
    }
    if |ds| % 2 == 1 {
      var p := (|ds| - 1) / 2;
      assert 2 * p == |ds| - 1;
    }
  }
}
