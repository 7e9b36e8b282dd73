/** The firm-wide baseline policy table, the check of a bilateral ruleset
    against it, and the per-form eligibility ceilings derived from the RQV. */
module Rules {

  /** One ruleset entry: concentration limit (percent of RQV), priority
      (lower is taken first) and valuation percentage. */
  datatype RuleEntry = RuleEntry(concentrationLimit: int, priority: int, valuationPct: int)

  /** The baseline table ("SecurityJSON"). */
  const Baseline: map<string, RuleEntry> := map[
    "CommonStocks"         := RuleEntry(40, 1, 97),
    "CorporateBonds"       := RuleEntry(30, 2, 97),
    "SovereignBonds"       := RuleEntry(25, 3, 95),
    "USTreasuryBills"      := RuleEntry(25, 4, 95),
    "USTreasuryBonds"      := RuleEntry(25, 5, 95),
    "USTreasuryNotes"      := RuleEntry(25, 6, 95),
    "Gilt"                 := RuleEntry(25, 7, 94),
    "FederalAgencyBonds"   := RuleEntry(20, 8, 93),
    "GlobalBonds"          := RuleEntry(20, 9, 92),
    "PreferrredShares"     := RuleEntry(20, 10, 91),
    "ConvertibleBonds"     := RuleEntry(20, 11, 90),
    "RevenueBonds"         := RuleEntry(15, 12, 90),
    "MediumTermNote"       := RuleEntry(15, 13, 89),
    "ShortTermInvestments" := RuleEntry(15, 14, 87),
    "BuilderBonds"         := RuleEntry(15, 15, 85)
  ]

  /** The baseline entry of a form. A form the table does not know reads as
      all zeros: the empty string that the table lookup yields parses to 0. */
  function BaselineOf(form: string): (base: RuleEntry)
  {
    if form in Baseline then Baseline[form] else RuleEntry(0, 0, 0)
  }

  /** The compliance test: an entry is out of the allowed values exactly when
      the baseline exceeds it strictly on all three axes. */
  predicate OutOfAllowedValues(entry: RuleEntry, base: RuleEntry)
  {
    base.priority > entry.priority
    && base.concentrationLimit > entry.concentrationLimit
    && base.valuationPct > entry.valuationPct
  }

  /** Ceiling on the value one form may contribute: RQV x limit / 100,
      rounded down to the fixed-point unit. */
  function Ceiling(rqv: int, limit: int): (c: int)
    ensures 100 * c <= rqv * limit < 100 * c + 100
  {
    (rqv * limit) / 100
  }

  /** The bilateral ruleset with the non-compliant entries removed. */
  function Validated(ruleset: map<string, RuleEntry>): (v: map<string, RuleEntry>)
    ensures forall f :: f in v <==> f in ruleset && !OutOfAllowedValues(ruleset[f], BaselineOf(f))
    ensures forall f :: f in v ==> v[f] == ruleset[f]
  {
    map f | f in ruleset && !OutOfAllowedValues(ruleset[f], BaselineOf(f)) :: ruleset[f]
  }

  /** The forms whose entries are dropped (each one is reported). */
  function Rejected(ruleset: map<string, RuleEntry>): (r: set<string>)
    ensures forall f :: f in r <==> f in ruleset && OutOfAllowedValues(ruleset[f], BaselineOf(f))
  {
    set f | f in ruleset && OutOfAllowedValues(ruleset[f], BaselineOf(f))
  }

  /** A form the baseline table does not know is compared with all zeros,
      so its entry is dropped exactly when all three of its values are
      negative; an entry with any non-negative value is kept. */
  lemma UnlistedFormDroppedOnlyBelowZero(ruleset: map<string, RuleEntry>, f: string)
    requires f in ruleset && f !in Baseline
    ensures f in Rejected(ruleset) <==>
      ruleset[f].concentrationLimit < 0 && ruleset[f].priority < 0 && ruleset[f].valuationPct < 0
    ensures f in Validated(ruleset) <==> f !in Rejected(ruleset)
  {
  }

  /** RQVEligibleValue: a ceiling for every entry that passes the test, none
      for a dropped one. */
  function EligibilityCeilings(ruleset: map<string, RuleEntry>, rqv: int): (c: map<string, int>)
    ensures c.Keys == Validated(ruleset).Keys
    ensures forall f :: f in c ==> 100 * c[f] <= rqv * ruleset[f].concentrationLimit < 100 * c[f] + 100
  {
    map f | f in Validated(ruleset) :: Ceiling(rqv, ruleset[f].concentrationLimit)
  }

  /** Every entry of the bilateral ruleset is either kept or rejected, never both. */
  lemma ValidationPartitions(ruleset: map<string, RuleEntry>)
    ensures Validated(ruleset).Keys + Rejected(ruleset) == ruleset.Keys
    ensures Validated(ruleset).Keys !! Rejected(ruleset)
  {
  }

  /** Validating an already validated ruleset changes nothing. */
  lemma ValidationIdempotent(ruleset: map<string, RuleEntry>)
    ensures Validated(Validated(ruleset)) == Validated(ruleset)
  {
  }

  /** A ruleset equal to the baseline passes in full. */
  lemma BaselinePassesValidation()
    ensures Validated(Baseline) == Baseline
  {
  }

  /** The baseline forms in priority order: the form of priority p is at index p - 1. */
  const PriorityOrder: seq<string> := [
    "CommonStocks", "CorporateBonds", "SovereignBonds", "USTreasuryBills", "USTreasuryBonds",
    "USTreasuryNotes", "Gilt", "FederalAgencyBonds", "GlobalBonds", "PreferrredShares",
    "ConvertibleBonds", "RevenueBonds", "MediumTermNote", "ShortTermInvestments", "BuilderBonds"
  ]

  /** Each baseline priority lies in 1..15 and names its form uniquely. */
  lemma BaselinePriorityNamesForm()
    ensures forall f :: f in Baseline ==> 1 <= Baseline[f].priority <= |PriorityOrder| && PriorityOrder[Baseline[f].priority - 1] == f
  {
  }

  /** Baseline priorities are a strict order: no two forms share one. */
  lemma BaselinePrioritiesDistinct()
    ensures forall f, g :: f in Baseline && g in Baseline && f != g ==> Baseline[f].priority != Baseline[g].priority
  {
    BaselinePriorityNamesForm();
  }

  /** For a limit between 0 and 100 percent and a non-negative RQV the
      ceiling lies between 0 and the RQV. */
  lemma CeilingWithinRqv(rqv: int, limit: int)
    requires rqv >= 0 && 0 <= limit <= 100
    ensures 0 <= Ceiling(rqv, limit) <= rqv
  {
    assert 0 <= rqv * limit <= rqv * 100;
  }

  /** Line 489 as written: the ceiling is RQV times the entry's value[1]
      (its priority, by line 475), and is not divided by 100. */
  function CeilingAsWritten(rqv: int, entry: RuleEntry): (c: int)
  {
    rqv * entry.priority
  }

  /** For a CommonStocks entry equal to the baseline, the written formula
      allows 100% of the RQV from that form instead of 40%. */
  lemma CeilingAsWrittenIgnoresLimit()
    ensures CeilingAsWritten(1000000, Baseline["CommonStocks"]) == 1000000
    ensures Ceiling(1000000, Baseline["CommonStocks"].concentrationLimit) == 400000
  {
  }

  /** The compliance test of line 482 as written: the "concentration limit"
      it compares is the entry's value[1], its priority (line 475). */
  predicate OutOfAllowedValuesAsWritten(entry: RuleEntry, base: RuleEntry)
  {
    base.priority > entry.priority
    && base.concentrationLimit > entry.priority
    && base.valuationPct > entry.valuationPct
  }

  /** A CommonStocks entry with a 50% limit, priority 0 and valuation 90
      goes beyond the baseline's 40% limit, so it is kept; as written its
      limit is never looked at and it is dropped. */
  lemma ComplianceAsWrittenIgnoresLimit()
    ensures OutOfAllowedValuesAsWritten(RuleEntry(50, 0, 90), Baseline["CommonStocks"])
    ensures !OutOfAllowedValues(RuleEntry(50, 0, 90), Baseline["CommonStocks"])
    ensures "CommonStocks" in Validated(map["CommonStocks" := RuleEntry(50, 0, 90)])
  {
  }
}
