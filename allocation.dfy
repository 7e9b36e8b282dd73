/** The allocation run: from a transaction's RQV, the bilateral ruleset, an
    FX snapshot and the two source accounts' lots to the ledger changes and
    the transaction record written back. */
module Allocation {
  import opened Maps
  import opened Rules
  import opened Holdings
  import opened Ordering
  import opened Selector
  import opened Reconciliation

  /** The margin-call transaction as the ledger stores it; the RQV is an
      amount in the fixed-point scale. */
  datatype Transaction = Transaction(
    transactionId: string,
    transactionDate: string,
    dealId: string,
    pledger: string,
    pledgee: string,
    rqv: int,
    currency: string,
    currencyConversionRate: string,
    marginCallDate: string,
    allocationStatus: string,
    transactionStatus: string)

  const PendingAllocation := "Pending due to insufficient collateral"
  const PendingTransaction := "Pending"
  const SuccessfulAllocation := "Allocation Successful"
  const CompleteTransaction := "Complete"

  /** AvailableEligibleCollateral: the lot values of the eligible lots of the
      pledger's long-box and the pledgee's segregated account. */
  function Available(longbox: seq<Security>, segregated: seq<Security>, ruleset: map<string, RuleEntry>, fx: FxSnapshot): (available: int)
  {
    Total(Eligible(longbox, ruleset, fx)) + Total(Eligible(segregated, ruleset, fx))
  }

  /** The record written back: the transaction's identity fields with the
      margin-call date, conversion rate and statuses of this run. */
  function Settle(txn: Transaction, marginCallDate: string, rate: string, allocation: string, transaction: string): (r: Transaction)
    ensures r.transactionId == txn.transactionId && r.dealId == txn.dealId && r.rqv == txn.rqv
    ensures r.allocationStatus == allocation && r.transactionStatus == transaction
  {
    txn.(currencyConversionRate := rate, marginCallDate := marginCallDate,
         allocationStatus := allocation, transactionStatus := transaction)
  }

  /** Any permutation of the two accounts' candidates is well formed. */
  lemma CandidatesWellFormed(longbox: seq<Security>, segregated: seq<Security>, ruleset: map<string, RuleEntry>,
                             fx: FxSnapshot, cs: seq<Candidate>)
    requires multiset(cs) == multiset(Eligible(longbox, ruleset, fx) + Eligible(segregated, ruleset, fx))
    ensures AllWellFormed(cs)
  {
    EligibleValues(longbox, ruleset, fx);
    EligibleValues(segregated, ruleset, fx);
    forall j | 0 <= j < |cs|
      ensures WellFormed(cs[j])
    {
      assert cs[j] in multiset(cs);
    }
  }

  /** start_allocation from the computed ceilings on: validate and cap,
      normalise both accounts, check feasibility, sort, select, and plan the
      ledger changes. The run completes only when the selection covers the
      RQV; otherwise it is pending and changes nothing. */
  method StartAllocation(txn: Transaction, ruleset: map<string, RuleEntry>, fx: FxSnapshot,
                         longbox: seq<Security>, segregated: seq<Security>,
                         destination: string, marginCallDate: string)
    returns (candidates: seq<Candidate>, selection: Selection, deltas: seq<Delta>, record: Transaction)
    ensures multiset(candidates) == multiset(Eligible(longbox, ruleset, fx) + Eligible(segregated, ruleset, fx))
    ensures && record.transactionId == txn.transactionId && record.transactionDate == txn.transactionDate
            && record.dealId == txn.dealId && record.pledger == txn.pledger && record.pledgee == txn.pledgee
            && record.rqv == txn.rqv && record.currency == txn.currency && record.marginCallDate == marginCallDate
    ensures || (record.allocationStatus == SuccessfulAllocation && record.transactionStatus == CompleteTransaction)
            || (record.allocationStatus == PendingAllocation && record.transactionStatus == PendingTransaction)
    ensures Available(longbox, segregated, ruleset, fx) < txn.rqv ==>
      record.allocationStatus == PendingAllocation && record.currencyConversionRate == "" && deltas == []
    ensures Available(longbox, segregated, ruleset, fx) >= txn.rqv ==>
      && SortedByPriority(candidates)
      && selection == Greedy(candidates, EligibilityCeilings(ruleset, txn.rqv), txn.rqv)
    ensures record.transactionStatus == CompleteTransaction <==>
      Available(longbox, segregated, ruleset, fx) >= txn.rqv && selection.rqvLeft <= 0
    ensures record.transactionStatus == CompleteTransaction ==> Reconciled(candidates, selection, destination, deltas)
    ensures record.transactionStatus == CompleteTransaction ==> record.currencyConversionRate == txn.currencyConversionRate
    ensures record.transactionStatus == PendingTransaction ==> record.currencyConversionRate == ""
    ensures record.transactionStatus == PendingTransaction ==> deltas == []
  {
    var rqv := txn.rqv;
    var ceilings := EligibilityCeilings(ruleset, rqv);
    var longboxCandidates, _, longboxTotal := NormalizeAccount(longbox, ruleset, fx);
    var segregatedCandidates, _, segregatedTotal := NormalizeAccount(segregated, ruleset, fx);
    var available := longboxTotal + segregatedTotal;
    var combined := longboxCandidates + segregatedCandidates;
    if available < rqv {
      candidates := combined;
      selection := Selection([], rqv, ceilings, map[]);
      deltas := [];
      record := Settle(txn, marginCallDate, "", PendingAllocation, PendingTransaction);
      return;
    }
    candidates := SortByPriority(combined);
    selection := SelectLots(candidates, ceilings, rqv);
    if selection.rqvLeft <= 0 {
      CandidatesWellFormed(longbox, segregated, ruleset, fx, candidates);
      GreedyTakesWithinLots(candidates, ceilings, rqv);
      deltas := PlanDeltas(candidates, selection, destination);
      record := Settle(txn, marginCallDate, txn.currencyConversionRate, SuccessfulAllocation, CompleteTransaction);
    } else {
      deltas := [];
      record := Settle(txn, marginCallDate, "", PendingAllocation, PendingTransaction);
    }
  }

  /** A completed run covers the RQV and overshoots it by less than the
      largest unit value among the lots taken; the candidates it drew on
      hold at least the RQV. */
  lemma SuccessfulPlanBounds(cands: seq<Candidate>, ceilings: map<string, int>, rqv: int)
    requires AllWellFormed(cands) && rqv > 0
    requires Greedy(cands, ceilings, rqv).rqvLeft <= 0
    ensures var r := Greedy(cands, ceilings, rqv);
      && r.plan != []
      && rqv <= PlanValue(r.plan) < rqv + MaxUnit(r.plan)
      && rqv <= Total(cands)
  {
    GreedyAccounts(cands, ceilings, rqv);
    GreedyOvershootBounded(cands, ceilings, rqv);
    GreedyWithinAvailable(cands, ceilings, rqv);
  }

  /** Only kept, priced lots move: every lot the pass takes from is of a
      form validation kept and has a positive FX rate and MTM, so a lot of a
      dropped form or of a currency missing from the snapshot stays at its
      source. */
  lemma PlanDrawsOnKeptPricedLots(longbox: seq<Security>, segregated: seq<Security>, ruleset: map<string, RuleEntry>,
                                  fx: FxSnapshot, rqv: int, cs: seq<Candidate>)
    requires multiset(cs) == multiset(Eligible(longbox, ruleset, fx) + Eligible(segregated, ruleset, fx))
    ensures var r := Greedy(cs, EligibilityCeilings(ruleset, rqv), rqv);
      forall k :: 0 <= k < |r.plan| ==>
        && r.plan[k].lot in cs
        && r.plan[k].lot.security.collateralForm in Validated(ruleset)
        && RateOf(fx, r.plan[k].lot.security.currency) > 0
        && r.plan[k].lot.security.mtm > 0
  {
    var ceilings := EligibilityCeilings(ruleset, rqv);
    var r := Greedy(cs, ceilings, rqv);
    assert forall k :: 0 <= k < |r.plan| ==> r.plan[k].lot in cs by {
      CandidatesWellFormed(longbox, segregated, ruleset, fx, cs);
      GreedyTakesFromLots(cs, ceilings, rqv);
    }
    GreedyTakesOnlyBackedLots(cs, ceilings, rqv);
    forall k | 0 <= k < |r.plan|
      ensures RateOf(fx, r.plan[k].lot.security.currency) > 0 && r.plan[k].lot.security.mtm > 0
    {
      assert r.plan[k].lot in multiset(cs);
      PricedCandidate(longbox, segregated, ruleset, fx, r.plan[k].lot);
    }
  }

  /** A candidate of positive unit value has a positive FX rate and MTM. */
  lemma PricedCandidate(longbox: seq<Security>, segregated: seq<Security>, ruleset: map<string, RuleEntry>,
                        fx: FxSnapshot, c: Candidate)
    requires c in Eligible(longbox, ruleset, fx) + Eligible(segregated, ruleset, fx)
    requires c.unitValue > 0
    ensures RateOf(fx, c.security.currency) > 0 && c.security.mtm > 0
  {
    EligibleValues(longbox, ruleset, fx);
    EligibleValues(segregated, ruleset, fx);
  }

  /** The sorted candidates hold exactly the available value. */
  lemma CandidatesHoldAvailable(longbox: seq<Security>, segregated: seq<Security>, ruleset: map<string, RuleEntry>,
                                fx: FxSnapshot, cs: seq<Candidate>)
    requires multiset(cs) == multiset(Eligible(longbox, ruleset, fx) + Eligible(segregated, ruleset, fx))
    ensures Total(cs) == Available(longbox, segregated, ruleset, fx)
  {
    TotalPermutation(cs, Eligible(longbox, ruleset, fx) + Eligible(segregated, ruleset, fx));
    TotalAppend(Eligible(longbox, ruleset, fx), Eligible(segregated, ruleset, fx));
  }

  /** Lines 603 and 838-850 as written: the outcome depends only on the
      feasibility check, so a run whose pass leaves RQV uncovered still
      records success. */
  function OutcomeAsWritten(available: int, rqv: int): (statuses: (string, string))
  {
    if available < rqv then (PendingAllocation, PendingTransaction)
    else (SuccessfulAllocation, CompleteTransaction)
  }

  /** The shortfall case: RQV 1,000,000 against a CommonStocks lot of 500
      units worth 1,000 each and a CorporateBonds lot of 800 such units, under
      a ruleset equal to the baseline for those two forms. */
  const ShortfallRqv := 1000000
  const ShortfallStock := Candidate(Security("A", "PL1", "Stock A", 500, "Equity", "CommonStocks", 1000, "USD"), 1, 1000, 500000)
  const ShortfallBond := Candidate(Security("B", "PL1", "Bond B", 800, "Bond", "CorporateBonds", 1000, "USD"), 2, 1000, 800000)
  const ShortfallRuleset := map["CommonStocks" := RuleEntry(40, 1, 97), "CorporateBonds" := RuleEntry(30, 2, 97)]

  /** Both forms pass the compliance test, with ceilings of 40% and 30%. */
  lemma ShortfallCeilings()
    ensures EligibilityCeilings(ShortfallRuleset, ShortfallRqv) == map["CommonStocks" := 400000, "CorporateBonds" := 300000]
  {
    BaselineShortfallForms();
    assert Validated(ShortfallRuleset).Keys == {"CommonStocks", "CorporateBonds"};
  }

  lemma BaselineShortfallForms()
    ensures BaselineOf("CommonStocks") == ShortfallRuleset["CommonStocks"]
    ensures BaselineOf("CorporateBonds") == ShortfallRuleset["CorporateBonds"]
  {
  }

  /** The pass takes 400 units of the stock (its ceiling) and 300 of the
      bond (its ceiling), and leaves 300,000 of the RQV uncovered. */
  lemma ShortfallPass()
    ensures var r := Greedy([ShortfallStock, ShortfallBond], map["CommonStocks" := 400000, "CorporateBonds" := 300000], ShortfallRqv);
      && r.plan == [Reallocation(0, ShortfallStock, 400, 400000), Reallocation(1, ShortfallBond, 300, 300000)]
      && r.rqvLeft == 300000
  {
    var cands := [ShortfallStock, ShortfallBond];
    var s0 := Selection([], ShortfallRqv, map["CommonStocks" := 400000, "CorporateBonds" := 300000], map[]);
    assert CeilDiv(400000, 1000) == 400;
    var s1 := Step(ShortfallStock, 0, s0);
    assert s1.rqvLeft == 600000;
    assert CeilDiv(300000, 1000) == 300;
    var s2 := Step(ShortfallBond, 1, s1);
    assert GreedyFrom(cands, 2, s2) == s2;
    assert GreedyFrom(cands, 1, s1) == GreedyFrom(cands, 2, s2);
  }

  /** As written, the shortfall case is recorded complete, since 1,300,000
      is available; the pass leaves RQV uncovered, so the model leaves it
      pending. */
  lemma OutcomeAsWrittenCompletesShortfall()
    ensures var r := Greedy([ShortfallStock, ShortfallBond], EligibilityCeilings(ShortfallRuleset, ShortfallRqv), ShortfallRqv);
      && r.rqvLeft == 300000
      && Total([ShortfallStock, ShortfallBond]) == 1300000
      && OutcomeAsWritten(Total([ShortfallStock, ShortfallBond]), ShortfallRqv) == (SuccessfulAllocation, CompleteTransaction)
  {
    ShortfallCeilings();
    ShortfallPass();
    assert [ShortfallStock, ShortfallBond][..1] == [ShortfallStock];
    assert [ShortfallStock][..0] == [];
    assert Total([ShortfallStock]) == 500000;
  }
}
