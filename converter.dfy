/** The lab-value converter: a table from lab name to its pair of units and
    multiplier, and the four-way conversion decision over it. The table is a
    parameter, so every lemma holds for any table meeting its hypotheses;
    SeedTable is the table the application ships with. */
module Converter {
  import opened Rounding

  datatype Option<T> = None | Some(value: T)

  /** One entry of the conversion table: a value in `source` times
      `multiplier` is the same quantity in `target`. */
  datatype Rule = Rule(source: string, target: string, multiplier: real)

  /** Lab name (exact, case-sensitive) to its rule. */
  type Table = map<string, Rule>

  predicate WellFormedRule(rule: Rule) {
    rule.source != rule.target && rule.multiplier > 0.0
  }

  /** Every entry has two distinct units and a positive multiplier. */
  predicate WellFormed(t: Table) {
    forall lab :: lab in t ==> WellFormedRule(t[lab])
  }

  /** A value stated in the rule's source unit, expressed in its target unit
      and rounded to two decimals: the nearest hundredth to value * multiplier. */
  function ToTarget(rule: Rule, value: real): (r: real)
    ensures -0.005 < r - value * rule.multiplier <= 0.005
  {
    Round2(value * rule.multiplier)
  }

  /** A value stated in the rule's target unit, expressed in its source unit
      and rounded to two decimals: the nearest hundredth to value / multiplier. */
  function ToSource(rule: Rule, value: real): (r: real)
    requires rule.multiplier != 0.0
    ensures -0.005 < r - value / rule.multiplier <= 0.005
  {
    Round2(value / rule.multiplier)
  }

  /** The table the application ships with. */
  const SeedTable: Table :=
    map[
      "Glucose" := Rule("mmol/L", "mg/dL", 18.0182),
      "Cholesterol" := Rule("mmol/L", "mg/dL", 38.67),
      "Creatinine" := Rule("mg/dL", "µmol/L", 88.4),
      "Calcium" := Rule("mmol/L", "mg/dL", 4.0)
    ]

  const UnknownLabMessage: string := "Unknown lab"
  const UnitMismatchMessage: string := "Unit mismatch"

  /** The pair the converter returns. On success `amount` holds the converted
      number and `unit` its unit; on failure `amount` is None and `unit`
      carries the error message instead. */
  datatype Converted = Converted(amount: Option<real>, unit: string)

  /** `unit` is one of the two units the table lists for `lab`. */
  predicate Accepts(t: Table, lab: string, unit: string) {
    lab in t && (unit == t[lab].source || unit == t[lab].target)
  }

  /** Converts `value`, stated in `fromUnit`, to the other unit of `lab`.
      The division needs a nonzero multiplier, which is all it asks of the table. */
  function Convert(t: Table, lab: string, value: real, fromUnit: string): (r: Converted)
    requires lab in t ==> t[lab].multiplier != 0.0
    ensures r.amount.Some? <==> Accepts(t, lab, fromUnit)
    ensures r.amount.Some? ==> OnGrid(r.amount.value)
    ensures r.amount.None? ==> r.unit == if lab in t then UnitMismatchMessage else UnknownLabMessage
  {
    if lab in t then
      var rule := t[lab];
      if fromUnit == rule.source then
        Converted(Some(ToTarget(rule, value)), rule.target)
      else if fromUnit == rule.target then
        Converted(Some(ToSource(rule, value)), rule.source)
      else
        Converted(None, UnitMismatchMessage)
    else
      Converted(None, UnknownLabMessage)
  }

  // ---------------------------------------------------------------------
  // The four branches

  /** A name that is not a key of the table fails, whatever the value and unit. */
  lemma UnknownLabFails(t: Table, lab: string, value: real, fromUnit: string)
    requires lab !in t
    ensures Convert(t, lab, value, fromUnit) == Converted(None, UnknownLabMessage)
  {
  }

  /** A value in the source unit is multiplied and comes back in the target unit. */
  lemma SourceUnitConvertsForward(t: Table, lab: string, value: real)
    requires lab in t && t[lab].multiplier != 0.0
    ensures Convert(t, lab, value, t[lab].source)
         == Converted(Some(ToTarget(t[lab], value)), t[lab].target)
  {
  }

  /** A value in the target unit (and not also the source unit) is divided
      and comes back in the source unit. */
  lemma TargetUnitConvertsBackward(t: Table, lab: string, value: real)
    requires lab in t && t[lab].multiplier != 0.0
    requires t[lab].target != t[lab].source
    ensures Convert(t, lab, value, t[lab].target)
         == Converted(Some(ToSource(t[lab], value)), t[lab].source)
  {
  }

  /** A known lab with a unit that is neither of its units fails. */
  lemma OtherUnitMismatches(t: Table, lab: string, value: real, fromUnit: string)
    requires lab in t && t[lab].multiplier != 0.0
    requires fromUnit != t[lab].source && fromUnit != t[lab].target
    ensures Convert(t, lab, value, fromUnit) == Converted(None, UnitMismatchMessage)
  {
  }

  // ---------------------------------------------------------------------
  // Units of a successful conversion

  /** On success the returned unit is the lab's other unit: together with
      `fromUnit` it makes up the lab's two units, and it differs from `fromUnit`. */
  lemma SuccessGivesOtherUnit(t: Table, lab: string, value: real, fromUnit: string)
    requires WellFormed(t)
    requires Accepts(t, lab, fromUnit)
    ensures var r := Convert(t, lab, value, fromUnit);
            r.unit != fromUnit && {fromUnit, r.unit} == {t[lab].source, t[lab].target}
  {
  }

  /** Feeding a successful result's unit back in for the same lab takes the
      opposite branch and returns the original unit, for any table. */
  lemma UnitRoundTrip(t: Table, lab: string, value: real, again: real, fromUnit: string)
    requires lab in t ==> t[lab].multiplier != 0.0
    requires Convert(t, lab, value, fromUnit).amount.Some?
    ensures var back := Convert(t, lab, again, Convert(t, lab, value, fromUnit).unit);
            back.amount.Some? && back.unit == fromUnit
  {
  }

  // ---------------------------------------------------------------------
  // Value round trips

  /** Converting from the source unit and back lands within one hundredth of
      the start, when the multiplier is at least 1 (as in every seeded entry). */
  lemma ForwardThenBackWithinCent(t: Table, lab: string, value: real)
    requires WellFormed(t) && lab in t && t[lab].multiplier >= 1.0
    ensures var there := Convert(t, lab, value, t[lab].source);
            there.amount.Some? &&
            var back := Convert(t, lab, there.amount.value, there.unit);
            back.amount.Some? && back.unit == t[lab].source &&
            -0.01 <= back.amount.value - value <= 0.01
  {
    SourceUnitConvertsForward(t, lab, value);
    TargetUnitConvertsBackward(t, lab, ToTarget(t[lab], value));
    RuleForwardThenBackWithinCent(t[lab], value);
  }

  /** Converting from the target unit and back drifts by at most (1 + m) / 200,
      where m is the multiplier; for a large multiplier that is more than a
      hundredth (see BackThenForwardCanDrift). */
  lemma BackThenForwardWithinBound(t: Table, lab: string, value: real)
    requires WellFormed(t) && lab in t
    ensures var there := Convert(t, lab, value, t[lab].target);
            there.amount.Some? &&
            var back := Convert(t, lab, there.amount.value, there.unit);
            back.amount.Some? && back.unit == t[lab].target &&
            -(1.0 + t[lab].multiplier) / 200.0 <= back.amount.value - value
            <= (1.0 + t[lab].multiplier) / 200.0
  {
    TargetUnitConvertsBackward(t, lab, value);
    SourceUnitConvertsForward(t, lab, ToSource(t[lab], value));
    RuleBackThenForwardWithinBound(t[lab], value);
  }

  /** Rule level: to the target unit and back lands within a hundredth of
      the start when the multiplier is at least 1. */
  lemma RuleForwardThenBackWithinCent(rule: Rule, value: real)
    requires rule.multiplier >= 1.0
    ensures -0.01 <= ToSource(rule, ToTarget(rule, value)) - value <= 0.01
  {
    var x := ToTarget(rule, value);
    QuotientClose(value, rule.multiplier, x);
  }

  /** Dividing by m >= 1 does not widen an error of half a hundredth. */
  lemma QuotientClose(value: real, m: real, x: real)
    requires m >= 1.0 && -0.005 < x - value * m <= 0.005
    ensures -0.005 <= x / m - value <= 0.005
  {
    var d := x - value * m;
    var e := x / m - value;
    assert e * m == d;
  }

  /** Rule level: to the source unit and back lands within (1 + m) / 200 of
      the start, m being the multiplier. */
  lemma RuleBackThenForwardWithinBound(rule: Rule, value: real)
    requires rule.multiplier > 0.0
    ensures -(1.0 + rule.multiplier) / 200.0 <= ToTarget(rule, ToSource(rule, value)) - value
            <= (1.0 + rule.multiplier) / 200.0
  {
    var x := ToSource(rule, value);
    ProductClose(value, rule.multiplier, x);
  }

  /** Multiplying by m > 0 scales an error of half a hundredth by m. */
  lemma ProductClose(value: real, m: real, x: real)
    requires m > 0.0 && -0.005 < x - value / m <= 0.005
    ensures -0.005 * m <= x * m - value <= 0.005 * m
  {
    var d := x - value / m;
    assert x * m - value == d * m;
    NonNegativeProduct(0.005 - d, m);
    NonNegativeProduct(d + 0.005, m);
  }

  lemma NonNegativeProduct(a: real, b: real)
    requires a >= 0.0 && b >= 0.0
    ensures a * b >= 0.0
  {
  }

  // ---------------------------------------------------------------------
  // The shipped table and worked examples

  /** Every seeded entry has distinct units and a multiplier of at least 1. */
  lemma SeedTableWellFormed()
    ensures WellFormed(SeedTable)
    ensures forall lab :: lab in SeedTable ==> SeedTable[lab].multiplier >= 1.0
  {
  }

  /** For every seeded lab, source-unit-and-back stays within one hundredth. */
  lemma SeedForwardThenBackWithinCent(lab: string, value: real)
    requires lab in SeedTable
    ensures var there := Convert(SeedTable, lab, value, SeedTable[lab].source);
            there.amount.Some? &&
            var back := Convert(SeedTable, lab, there.amount.value, there.unit);
            back.amount.Some? && -0.01 <= back.amount.value - value <= 0.01
  {
    SeedTableWellFormed();
    ForwardThenBackWithinCent(SeedTable, lab, value);
  }

  /** 5.0 mmol/L of glucose is 5.0 * 18.0182 = 90.091, shown as 90.09 mg/dL. */
  lemma GlucoseExample()
    ensures Convert(SeedTable, "Glucose", 5.0, "mmol/L") == Converted(Some(90.09), "mg/dL")
  {
    assert 5.0 * 18.0182 == 90.091;
    assert (90.091 * 100.0 + 0.5).Floor == 9009;
  }

  /** 88.4 mg/dL of creatinine is 88.4 * 88.4 = 7814.56 µmol/L. */
  lemma CreatinineExample()
    ensures Convert(SeedTable, "Creatinine", 88.4, "mg/dL") == Converted(Some(7814.56), "µmol/L")
  {
    assert 88.4 * 88.4 == 7814.56;
    assert (7814.56 * 100.0 + 0.5).Floor == 781456;
  }

  /** A name outside the table is reported as an unknown lab. */
  lemma UnknownLabExample()
    ensures Convert(SeedTable, "NotALab", 5.0, "mg/dL") == Converted(None, UnknownLabMessage)
  {
  }

  /** Glucose is listed in mmol/L and mg/dL only, so µmol/L is a mismatch. */
  lemma MismatchExample()
    ensures Convert(SeedTable, "Glucose", 5.0, "µmol/L") == Converted(None, UnitMismatchMessage)
  {
  }

  /** Target-unit-and-back can miss by more than a hundredth: 1.0 µmol/L of
      creatinine becomes 0.01 mg/dL, which converts back to 0.88 µmol/L. */
  lemma BackThenForwardCanDrift()
    ensures var there := Convert(SeedTable, "Creatinine", 1.0, "µmol/L");
            there == Converted(Some(0.01), "mg/dL") &&
            Convert(SeedTable, "Creatinine", 0.01, "mg/dL") == Converted(Some(0.88), "µmol/L")
  {
    assert (1.0 / 88.4 * 100.0 + 0.5).Floor == 1;
    assert 0.01 * 88.4 == 0.884;
    assert (0.884 * 100.0 + 0.5).Floor == 88;
  }
}
