/** Security lots, their normalisation into comparable base-currency values,
    and the per-form and overall totals of the eligible lots. */
module Holdings {
  import opened Maps
  import opened Rules

  /** A lot as the account ledger stores it; `mtm` is the price of one unit
      in whole units of `currency`. */
  datatype Security = Security(
    securityId: string,
    accountNumber: string,
    securityName: string,
    quantity: nat,
    securityType: string,
    collateralForm: string,
    mtm: nat,
    currency: string)

  /** Exchange rates into the base currency, as integers in a fixed-point
      scale. The MTM of a lot is a whole number of its currency's units, so
      rate × MTM, and every value, ceiling and RQV below, is an amount of
      the base currency in the rates' scale. */
  datatype FxSnapshot = FxSnapshot(base: string, date: string, rates: map<string, nat>)

  /** A lot that passed the ruleset filter: its priority (from the bilateral
      ruleset), the value of one unit and the value of the whole lot. */
  datatype Candidate = Candidate(security: Security, priority: int, unitValue: nat, lotValue: nat)

  /** The rate of a currency; a currency missing from the snapshot reads as 0. */
  function RateOf(fx: FxSnapshot, currency: string): (rate: nat)
  {
    Get(fx.rates, currency, 0)
  }

  function Normalize(s: Security, entry: RuleEntry, fx: FxSnapshot): (c: Candidate)
  {
    var unit := RateOf(fx, s.currency) * s.mtm;
    Candidate(s, entry.priority, unit, unit * s.quantity)
  }

  /** The candidates one account contributes, in account order: every lot
      whose form is in the ruleset, normalised; every other lot left out. */
  function Eligible(holdings: seq<Security>, ruleset: map<string, RuleEntry>, fx: FxSnapshot): (cs: seq<Candidate>)
  {
    if holdings == [] then []
    else
      var s := holdings[|holdings| - 1];
      Eligible(holdings[..|holdings| - 1], ruleset, fx)
        + (if s.collateralForm in ruleset then [Normalize(s, ruleset[s.collateralForm], fx)] else [])
  }

  /** Sum of the lot values. */
  function Total(cs: seq<Candidate>): (total: int)
  {
    if cs == [] then 0 else Total(cs[..|cs| - 1]) + cs[|cs| - 1].lotValue
  }

  /** Sum of the lot values of one collateral form. */
  function FormTotal(cs: seq<Candidate>, form: string): (total: int)
  {
    if cs == [] then 0
    else
      var last := cs[|cs| - 1];
      FormTotal(cs[..|cs| - 1], form) + (if last.security.collateralForm == form then last.lotValue else 0)
  }

  function FormsOf(cs: seq<Candidate>): (forms: set<string>)
  {
    set c | c in cs :: c.security.collateralForm
  }

  /** The lot value of a candidate is its unit value times its quantity. */
  ghost predicate WellFormed(c: Candidate)
  {
    c.lotValue == c.unitValue * c.security.quantity
  }

  /** The running totals of the normalisation loop describe `included`. */
  ghost predicate Summarises(included: seq<Candidate>, formTotals: map<string, int>, total: int)
  {
    && total == Total(included)
    && formTotals.Keys == FormsOf(included)
    && forall f :: f in formTotals ==> formTotals[f] == FormTotal(included, f)
  }

  /** One account's pass of the normalisation loop: filter by the ruleset,
      value each lot, and accumulate per-form and overall totals. */
  method NormalizeAccount(holdings: seq<Security>, ruleset: map<string, RuleEntry>, fx: FxSnapshot)
    returns (included: seq<Candidate>, formTotals: map<string, int>, total: int)
    ensures included == Eligible(holdings, ruleset, fx)
    ensures total == Total(included)
    ensures formTotals.Keys == FormsOf(included)
    ensures forall f :: f in formTotals ==> formTotals[f] == FormTotal(included, f)
  {
    included, formTotals, total := [], map[], 0;
    var i := 0;
    while i < |holdings|
      invariant i <= |holdings|
      invariant included == Eligible(holdings[..i], ruleset, fx)
      invariant Summarises(included, formTotals, total)
    {
      assert holdings[..i + 1][..i] == holdings[..i];
      var s := holdings[i];
      if s.collateralForm in ruleset {
        var c := Normalize(s, ruleset[s.collateralForm], fx);
        AccumulateKeeps(included, formTotals, total, c);
        formTotals := formTotals[s.collateralForm := Get(formTotals, s.collateralForm, 0) + c.lotValue];
        total := total + c.lotValue;
        included := included + [c];
      }
      i := i + 1;
    }
    assert holdings[..i] == holdings;
  }

  /** Adding one candidate's lot value to its form's total and to the
      overall total keeps the totals describing the candidates. */
  lemma AccumulateKeeps(included: seq<Candidate>, formTotals: map<string, int>, total: int, c: Candidate)
    requires Summarises(included, formTotals, total)
    ensures Summarises(included + [c],
                       formTotals[c.security.collateralForm := Get(formTotals, c.security.collateralForm, 0) + c.lotValue],
                       total + c.lotValue)
  {
    var form := c.security.collateralForm;
    var next := included + [c];
    var totals := formTotals[form := Get(formTotals, form, 0) + c.lotValue];
    assert next[..|next| - 1] == included;
    FormsOfSnoc(included, c);
    if form !in FormsOf(included) {
      FormTotalOfAbsentForm(included, form);
    }
    forall g | g in totals
      ensures totals[g] == FormTotal(next, g)
    {
      assert FormTotal(next, g) == FormTotal(included, g) + (if g == form then c.lotValue else 0);
    }
  }

  lemma FormsOfSnoc(cs: seq<Candidate>, c: Candidate)
    ensures FormsOf(cs + [c]) == FormsOf(cs) + {c.security.collateralForm}
  {
    assert forall d :: d in cs + [c] <==> d in cs || d == c;
  }

  /** A form that no candidate has totals to zero. */
  lemma {:induction false} FormTotalOfAbsentForm(cs: seq<Candidate>, form: string)
    requires form !in FormsOf(cs)
    ensures FormTotal(cs, form) == 0
  {
    if cs != [] {
      assert FormsOf(cs[..|cs| - 1]) <= FormsOf(cs);
      FormTotalOfAbsentForm(cs[..|cs| - 1], form);
    }
  }

  /** A candidate comes from exactly one of the account's lots whose form the
      ruleset lists, normalised with that form's entry; every such lot
      yields one. */
  lemma {:induction false} EligibleExactly(holdings: seq<Security>, ruleset: map<string, RuleEntry>, fx: FxSnapshot)
    ensures forall c :: c in Eligible(holdings, ruleset, fx) <==>
      exists s :: s in holdings && s.collateralForm in ruleset && c == Normalize(s, ruleset[s.collateralForm], fx)
  {
    if holdings != [] {
      var prefix := holdings[..|holdings| - 1];
      EligibleExactly(prefix, ruleset, fx);
      assert holdings == prefix + [holdings[|holdings| - 1]];
    }
  }

  /** Every candidate's form is in the ruleset, its unit value is FX rate x
      MTM, and its lot value is unit value x quantity. */
  lemma EligibleValues(holdings: seq<Security>, ruleset: map<string, RuleEntry>, fx: FxSnapshot)
    ensures forall c :: c in Eligible(holdings, ruleset, fx) ==>
      && c.security in holdings
      && c.security.collateralForm in ruleset
      && c.priority == ruleset[c.security.collateralForm].priority
      && c.unitValue == RateOf(fx, c.security.currency) * c.security.mtm
      && c.lotValue == c.unitValue * c.security.quantity
  {
    EligibleExactly(holdings, ruleset, fx);
  }

  /** A form absent from the ruleset contributes nothing to the totals. */
  lemma {:induction false} ExcludedFormTotalsZero(holdings: seq<Security>, ruleset: map<string, RuleEntry>, fx: FxSnapshot, form: string)
    requires form !in ruleset
    ensures FormTotal(Eligible(holdings, ruleset, fx), form) == 0
  {
    EligibleValues(holdings, ruleset, fx);
    FormTotalOfAbsentForm(Eligible(holdings, ruleset, fx), form);
  }

  lemma {:induction false} TotalAppend(a: seq<Candidate>, b: seq<Candidate>)
    ensures Total(a + b) == Total(a) + Total(b)
  {
    if b != [] {
      var b' := b[..|b| - 1];
      assert (a + b)[..|a + b| - 1] == a + b';
      TotalAppend(a, b');
    } else {
      assert a + b == a;
    }
  }

  /** Total of a sequence with one element removed. */
  lemma {:induction false} TotalRemove(cs: seq<Candidate>, k: nat)
    requires k < |cs|
    ensures Total(cs) == Total(cs[..k] + cs[k + 1..]) + cs[k].lotValue
  {
    if k == |cs| - 1 {
      assert cs[..k] + cs[k + 1..] == cs[..|cs| - 1];
    } else {
      var prefix := cs[..|cs| - 1];
      TotalRemove(prefix, k);
      assert cs[..k] + cs[k + 1..] == (prefix[..k] + prefix[k + 1..]) + [cs[|cs| - 1]];
      TotalAppend(prefix[..k] + prefix[k + 1..], [cs[|cs| - 1]]);
      assert [cs[|cs| - 1]][..0] == [];
    }
  }

  lemma MultisetRemove(b: seq<Candidate>, k: nat)
    requires k < |b|
    ensures multiset(b[..k] + b[k + 1..]) == multiset(b) - multiset{b[k]}
  {
    assert b == b[..k] + [b[k]] + b[k + 1..];
  }

  /** Reordering the candidates (as the priority sort does) keeps the total. */
  lemma {:induction false} TotalPermutation(a: seq<Candidate>, b: seq<Candidate>)
    requires multiset(a) == multiset(b)
    ensures Total(a) == Total(b)
  {
    if a != [] {
      var last := a[|a| - 1];
      var a' := a[..|a| - 1];
      assert a == a' + [last];
      assert multiset(a') == multiset(a) - multiset{last};
      assert last in multiset(b);
      var k :| 0 <= k < |b| && b[k] == last;
      MultisetRemove(b, k);
      TotalPermutation(a', b[..k] + b[k + 1..]);
      TotalRemove(b, k);
    } else {
      assert |multiset(b)| == 0;
    }
  }

  /** Lines 546-547 and 584 as written: "=+" assigns rather than adds, so
      the available collateral is the value of the last eligible lot only. */
  function AvailableAsWritten(cs: seq<Candidate>): (available: int)
  {
    if cs == [] then 0 else cs[|cs| - 1].lotValue
  }

  /** Two lots worth 60 each against an RQV of 100: 120 is available, but
      the written accumulation reports 60 and so a shortfall. */
  lemma AvailableAsWrittenUndercounts()
    ensures var s := Security("A", "LB", "A", 60, "Equity", "CommonStocks", 1, "USD");
            var c := Candidate(s, 1, 1, 60);
            AvailableAsWritten([c, c]) == 60 < 100 <= Total([c, c]) == 120
  {
    var s := Security("A", "LB", "A", 60, "Equity", "CommonStocks", 1, "USD");
    var c := Candidate(s, 1, 1, 60);
    assert [c, c][..1] == [c];
    assert [c][..0] == [];
    assert Total([c]) == 60;
  }
}
