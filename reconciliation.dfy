/** Reconciliation planning: the ledger changes that carry out a selection.
    Every candidate lot is deleted or has its quantity reduced at its source
    account, and every plan entry becomes a new lot at the destination. */
module Reconciliation {
  import opened Maps
  import opened Holdings
  import opened Selector

  /** The calls the allocation makes on the account ledger. */
  datatype Delta =
    | DeleteSecurity(securityId: string, accountNumber: string)
    | UpdateSecurity(security: Security)
    | AddSecurity(security: Security)

  /** The change at the source for a lot from which `taken` units move:
      the lot goes when nothing is left, otherwise only its quantity drops. */
  ghost predicate SourceDelta(c: Candidate, taken: nat, d: Delta)
  {
    && taken <= c.security.quantity
    && if taken == c.security.quantity
       then d == DeleteSecurity(c.security.securityId, c.security.accountNumber)
       else d == UpdateSecurity(c.security.(quantity := c.security.quantity - taken))
  }

  /** The new lot for a plan entry: the source lot with the taken quantity,
      held in the destination account. */
  ghost predicate AddDelta(e: Reallocation, destination: string, d: Delta)
  {
    d == AddSecurity(e.lot.security.(quantity := e.quantity, accountNumber := destination))
  }

  /** One source change per candidate, in candidate order, then one add per
      plan entry, in plan order. */
  ghost predicate Reconciled(cands: seq<Candidate>, sel: Selection, destination: string, deltas: seq<Delta>)
  {
    && |deltas| == |cands| + |sel.plan|
    && (forall i :: 0 <= i < |cands| ==> SourceDelta(cands[i], Get(sel.changed, i, 0), deltas[i]))
    && (forall j :: 0 <= j < |sel.plan| ==> AddDelta(sel.plan[j], destination, deltas[|cands| + j]))
  }

  /** The units a delta leaves in, or brings to, its account. */
  function UnitsHeld(d: Delta): (units: nat)
  {
    match d
    case DeleteSecurity(_, _) => 0
    case UpdateSecurity(s) => s.quantity
    case AddSecurity(s) => s.quantity
  }

  method PlanDeltas(cands: seq<Candidate>, sel: Selection, destination: string) returns (deltas: seq<Delta>)
    requires forall i :: 0 <= i < |cands| ==> Get(sel.changed, i, 0) <= cands[i].security.quantity
    ensures Reconciled(cands, sel, destination, deltas)
  {
    deltas := [];
    var i := 0;
    while i < |cands|
      invariant 0 <= i <= |cands| && |deltas| == i
      invariant forall k :: 0 <= k < i ==> SourceDelta(cands[k], Get(sel.changed, k, 0), deltas[k])
    {
      var s := cands[i].security;
      var newQuantity := s.quantity - Get(sel.changed, i, 0);
      if newQuantity == 0 {
        deltas := deltas + [DeleteSecurity(s.securityId, s.accountNumber)];
      } else {
        deltas := deltas + [UpdateSecurity(s.(quantity := newQuantity))];
      }
      i := i + 1;
    }
    var j := 0;
    while j < |sel.plan|
      invariant 0 <= j <= |sel.plan| && |deltas| == |cands| + j
      invariant forall k :: 0 <= k < |cands| ==> SourceDelta(cands[k], Get(sel.changed, k, 0), deltas[k])
      invariant forall k :: 0 <= k < j ==> AddDelta(sel.plan[k], destination, deltas[|cands| + k])
    {
      var e := sel.plan[j];
      deltas := deltas + [AddSecurity(e.lot.security.(quantity := e.quantity, accountNumber := destination))];
      j := j + 1;
    }
  }

  /** Units are conserved lot by lot: what a candidate keeps at its source
      plus what the plan moves from it is what it held, and every add brings
      exactly the units its source lot gave up, with the source lot's
      identity, form and price. */
  lemma ReconciliationConservesUnits(cands: seq<Candidate>, ceilings: map<string, int>, rqv: int,
                                     destination: string, deltas: seq<Delta>)
    requires AllWellFormed(cands)
    requires Reconciled(cands, Greedy(cands, ceilings, rqv), destination, deltas)
    ensures var r := Greedy(cands, ceilings, rqv);
      && (forall i :: 0 <= i < |cands| ==> UnitsHeld(deltas[i]) + TakenAt(r.plan, i) == cands[i].security.quantity)
      && (forall j :: 0 <= j < |r.plan| ==>
            && r.plan[j].position < |cands|
            && deltas[|cands| + j].AddSecurity?
            && deltas[|cands| + j].security == cands[r.plan[j].position].security.(
                 quantity := TakenAt(r.plan, r.plan[j].position), accountNumber := destination))
  {
    GreedyKeeps(cands, ceilings, rqv);
    var r := Greedy(cands, ceilings, rqv);
    forall j | 0 <= j < |r.plan|
      ensures TakenAt(r.plan, r.plan[j].position) == r.plan[j].quantity
    {
      TakenAtDistinct(r.plan, j);
    }
  }

  /** SecuritiesChanged as written: keyed by SecurityId alone, so two lots
      of one security in different accounts share an entry. */
  function ChangedAsWritten(plan: seq<Reallocation>): (changed: map<string, nat>)
  {
    if plan == [] then map[]
    else
      var e := plan[|plan| - 1];
      ChangedAsWritten(plan[..|plan| - 1])[e.lot.security.securityId := e.quantity]
  }

  /** The new quantity that the update loop computes for a lot, as written. */
  function NewQuantityAsWritten(c: Candidate, changed: map<string, nat>): (quantity: int)
  {
    c.security.quantity - Get(changed, c.security.securityId, 0)
  }

  /** Security S held as 10 units in the pledger's long-box and 3 units in
      the pledgee's segregated account; the plan takes all 10 long-box units.
      As written, the segregated lot is updated to -7 units; keyed by
      candidate position, it keeps its 3 units. */
  lemma ChangedAsWrittenConflatesAccounts()
    ensures var a := Candidate(Security("S", "L1", "Stock", 10, "Equity", "CommonStocks", 5, "USD"), 1, 5, 50);
      var b := Candidate(Security("S", "G1", "Stock", 3, "Equity", "CommonStocks", 5, "USD"), 1, 5, 15);
      var plan := [Reallocation(0, a, 10, 50)];
      && NewQuantityAsWritten(b, ChangedAsWritten(plan)) == -7
      && b.security.quantity - TakenAt(plan, 1) == 3
  {
    var a := Candidate(Security("S", "L1", "Stock", 10, "Equity", "CommonStocks", 5, "USD"), 1, 5, 50);
    var plan := [Reallocation(0, a, 10, 50)];
    assert plan[..0] == [];
  }
}
