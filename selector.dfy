/** The greedy, priority-ordered, ceiling-constrained selection of lots:
    one pass over the sorted candidates that takes whole lots or rounded-up
    partial lots until the RQV is covered. */
module Selector {
  import opened Maps
  import opened Holdings

  function Min(a: int, b: int): (m: int)
  {
    if a <= b then a else b
  }

  function Max(a: int, b: int): (m: int)
  {
    if a <= b then b else a
  }

  /** Units are indivisible: the fewest whole units of value b that cover a. */
  function CeilDiv(a: int, b: int): (r: int)
    requires b > 0
    ensures (r - 1) * b < a <= r * b
    ensures a > 0 ==> r > 0
  {
    var n := a + b - 1;
    assert b * (n / b) <= n < b * (n / b) + b;
    n / b
  }

  lemma MulCancel(x: int, y: int, u: int)
    requires u > 0 && x * u < y * u
    ensures x < y
  {
  }

  /** Rounding up preserves order. */
  lemma CeilDivMonotone(a: int, a': int, b: int)
    requires b > 0 && a <= a'
    ensures CeilDiv(a, b) <= CeilDiv(a', b)
  {
    var r, r' := CeilDiv(a, b), CeilDiv(a', b);
    MulCancel(r - 1, r', b);
  }

  lemma MulWithin(q: nat, n: nat, u: nat)
    requires q <= n
    ensures 0 <= q * u <= u * n
  {
  }

  /** What the loop does with one candidate. */
  datatype Decision = Skip | Take(quantity: nat)

  /** The decision for one lot of `quantity` units of value `unit`, given the
      remaining ceiling of its form and the remaining RQV. A lot whose units
      carry no value (no FX rate for its currency) is skipped, as is one whose
      form has less ceiling left than one unit's value. */
  function Decide(unit: nat, quantity: nat, ceilingLeft: int, rqvLeft: int): (d: Decision)
    requires rqvLeft > 0
    ensures d.Skip? <==> ceilingLeft < unit || unit == 0
    ensures d.Take? ==> d.quantity <= quantity
    ensures d.Take? && unit * quantity <= ceilingLeft && unit * quantity <= rqvLeft ==> d.quantity == quantity
    ensures d.Take? && !(unit * quantity <= ceilingLeft && unit * quantity <= rqvLeft) ==>
      unit > 0 && (d.quantity - 1) * unit < Min(ceilingLeft, rqvLeft) <= d.quantity * unit
    ensures d.Take? ==>
      d.quantity * unit <= Min(ceilingLeft, rqvLeft) || (unit > 0 && d.quantity * unit < Min(ceilingLeft, rqvLeft) + unit)
  {
    if ceilingLeft < unit || unit == 0 then Skip
    else if unit * quantity <= ceilingLeft && unit * quantity <= rqvLeft then Take(quantity)
    else
      var limit := Min(ceilingLeft, rqvLeft);
      assert unit > 0;
      var q := CeilDiv(limit, unit);
      assert (q - 1) * unit < limit < quantity * unit;
      MulCancel(q - 1, quantity, unit);
      Take(q)
  }

  /** One entry of ReallocatedSecurities: the candidate at `position` of the
      sorted list, the units taken from it and the value they carry. */
  datatype Reallocation = Reallocation(position: nat, lot: Candidate, quantity: nat, value: int)

  /** The loop's state: the plan so far, RQVLeft, RQVEligibleValueLeft and
      SecuritiesChanged (units taken, by candidate position). */
  datatype Selection = Selection(
    plan: seq<Reallocation>,
    rqvLeft: int,
    ceilingLeft: map<string, int>,
    changed: map<nat, nat>)

  /** One iteration of the loop body on candidate c at position i. */
  function Step(c: Candidate, i: nat, st: Selection): (st': Selection)
    requires st.rqvLeft > 0
  {
    var form := c.security.collateralForm;
    var ceiling := Get(st.ceilingLeft, form, 0);
    match Decide(c.unitValue, c.security.quantity, ceiling, st.rqvLeft)
    case Skip => st
    case Take(q) =>
      var v := q * c.unitValue;
      Selection(st.plan + [Reallocation(i, c, q, v)], st.rqvLeft - v,
                st.ceilingLeft[form := ceiling - v], st.changed[i := q])
  }

  /** The loop from position i on: it stops at the end of the list or as
      soon as RQVLeft is no longer positive. */
  function GreedyFrom(cands: seq<Candidate>, i: nat, st: Selection): (sel: Selection)
    requires i <= |cands|
    decreases |cands| - i
  {
    if i == |cands| || st.rqvLeft <= 0 then st
    else GreedyFrom(cands, i + 1, Step(cands[i], i, st))
  }

  /** The whole pass, from a fresh copy of the ceilings. */
  function Greedy(cands: seq<Candidate>, ceilings: map<string, int>, rqv: int): (sel: Selection)
  {
    GreedyFrom(cands, 0, Selection([], rqv, ceilings, map[]))
  }

  function PlanValue(plan: seq<Reallocation>): (v: int)
  {
    if plan == [] then 0 else PlanValue(plan[..|plan| - 1]) + plan[|plan| - 1].value
  }

  function FormValue(plan: seq<Reallocation>, form: string): (v: int)
  {
    if plan == [] then 0
    else
      var e := plan[|plan| - 1];
      FormValue(plan[..|plan| - 1], form) + (if e.lot.security.collateralForm == form then e.value else 0)
  }

  /** The largest unit value among the planned lots. */
  function MaxUnit(plan: seq<Reallocation>): (u: nat)
  {
    if plan == [] then 0 else Max(MaxUnit(plan[..|plan| - 1]), plan[|plan| - 1].lot.unitValue)
  }

  /** The largest unit value among the planned lots of one form. */
  function MaxUnitOf(plan: seq<Reallocation>, form: string): (u: nat)
  {
    if plan == [] then 0
    else
      var e := plan[|plan| - 1];
      var before := MaxUnitOf(plan[..|plan| - 1], form);
      if e.lot.security.collateralForm == form then Max(before, e.lot.unitValue) else before
  }

  /** The units the plan takes from the candidate at position p. */
  function TakenAt(plan: seq<Reallocation>, p: nat): (taken: nat)
  {
    if plan == [] then 0
    else if plan[|plan| - 1].position == p then plan[|plan| - 1].quantity
    else TakenAt(plan[..|plan| - 1], p)
  }

  ghost predicate AllWellFormed(cands: seq<Candidate>)
  {
    forall j :: 0 <= j < |cands| ==> WellFormed(cands[j])
  }

  /** RQVLeft and each form's remaining ceiling have been decremented by
      exactly the values in the plan. */
  ghost predicate Accounted(st: Selection, rqv: int, ceilings: map<string, int>)
  {
    && st.rqvLeft == rqv - PlanValue(st.plan)
    && forall f :: Get(st.ceilingLeft, f, 0) == Get(ceilings, f, 0) - FormValue(st.plan, f)
  }

  /** A plan entry drawn from a candidate before position i. */
  ghost predicate ValidEntry(cands: seq<Candidate>, i: nat, e: Reallocation)
  {
    && e.position < i && e.position < |cands|
    && e.lot == cands[e.position]
    && e.quantity <= e.lot.security.quantity
    && e.value == e.quantity * e.lot.unitValue
  }

  /** Entries come from earlier candidates, at most once each and in order,
      and SecuritiesChanged records what the plan takes from each. */
  ghost predicate Placed(cands: seq<Candidate>, i: nat, st: Selection)
  {
    && (forall k :: 0 <= k < |st.plan| ==> ValidEntry(cands, i, st.plan[k]))
    && (forall k, l :: 0 <= k < l < |st.plan| ==> st.plan[k].position < st.plan[l].position)
    && (forall p :: Get(st.changed, p, 0) == TakenAt(st.plan, p))
  }

  /** RQVLeft and every ceiling that was drawn on stay above minus one unit. */
  ghost predicate Overshoot(st: Selection)
  {
    && (st.plan != [] ==> st.rqvLeft + MaxUnit(st.plan) > 0)
    && forall f :: FormValue(st.plan, f) > 0 ==> Get(st.ceilingLeft, f, 0) + MaxUnitOf(st.plan, f) > 0
  }

  /** Every entry was taken while some RQV was still outstanding. */
  ghost predicate TakenWhileOutstanding(st: Selection, rqv: int)
  {
    forall k :: 0 <= k < |st.plan| ==> rqv - PlanValue(st.plan[..k]) > 0
  }

  /** Candidate j can give nothing more: its units carry no value, its
      form's ceiling is below one of its units, or it was taken whole. */
  ghost predicate Exhausted(c: Candidate, j: nat, st: Selection)
  {
    || c.unitValue == 0
    || Get(st.ceilingLeft, c.security.collateralForm, 0) < c.unitValue
    || TakenAt(st.plan, j) == c.security.quantity
  }

  ghost predicate Invariant(cands: seq<Candidate>, i: nat, rqv: int, ceilings: map<string, int>, st: Selection)
    requires i <= |cands|
  {
    && Accounted(st, rqv, ceilings)
    && Placed(cands, i, st)
    && Overshoot(st)
    && TakenWhileOutstanding(st, rqv)
    && PlanValue(st.plan) <= Total(cands[..i])
    && (st.rqvLeft > 0 ==> forall j :: 0 <= j < i ==> Exhausted(cands[j], j, st))
  }

  lemma PlanSnoc(plan: seq<Reallocation>, e: Reallocation)
    ensures PlanValue(plan + [e]) == PlanValue(plan) + e.value
    ensures forall f :: FormValue(plan + [e], f) == FormValue(plan, f) + (if e.lot.security.collateralForm == f then e.value else 0)
    ensures MaxUnit(plan + [e]) == Max(MaxUnit(plan), e.lot.unitValue)
    ensures forall f :: MaxUnitOf(plan + [e], f) == if e.lot.security.collateralForm == f then Max(MaxUnitOf(plan, f), e.lot.unitValue) else MaxUnitOf(plan, f)
    ensures forall p :: TakenAt(plan + [e], p) == if e.position == p then e.quantity else TakenAt(plan, p)
    ensures forall k :: 0 <= k <= |plan| ==> (plan + [e])[..k] == plan[..k]
  {
    assert (plan + [e])[..|plan|] == plan;
  }

  lemma {:induction false} TotalPrefixMonotone(cands: seq<Candidate>, i: nat)
    requires i <= |cands|
    ensures Total(cands[..i]) <= Total(cands)
  {
    if i < |cands| {
      assert cands[..|cands| - 1][..i] == cands[..i];
      TotalPrefixMonotone(cands[..|cands| - 1], i);
    } else {
      assert cands[..i] == cands;
    }
  }

  /** The state after taking entry e from the candidate's form. */
  ghost predicate TakenInto(st: Selection, e: Reallocation, ceiling: int, st': Selection)
  {
    var form := e.lot.security.collateralForm;
    && ceiling == Get(st.ceilingLeft, form, 0)
    && st' == Selection(st.plan + [e], st.rqvLeft - e.value,
                        st.ceilingLeft[form := ceiling - e.value], st.changed[e.position := e.quantity])
  }

  lemma TakeAccounted(st: Selection, e: Reallocation, ceiling: int, st': Selection, rqv: int, ceilings: map<string, int>)
    requires TakenInto(st, e, ceiling, st') && Accounted(st, rqv, ceilings)
    ensures Accounted(st', rqv, ceilings)
  {
    var form := e.lot.security.collateralForm;
    assert st'.plan[..|st'.plan| - 1] == st.plan;
    forall f ensures Get(st'.ceilingLeft, f, 0) == Get(ceilings, f, 0) - FormValue(st'.plan, f) {
      assert FormValue(st'.plan, f) == FormValue(st.plan, f) + (if form == f then e.value else 0);
      if f == form {
        assert Get(st'.ceilingLeft, f, 0) == ceiling - e.value;
      } else {
        assert Get(st'.ceilingLeft, f, 0) == Get(st.ceilingLeft, f, 0);
      }
    }
  }

  lemma TakePlaced(cands: seq<Candidate>, i: nat, st: Selection, e: Reallocation, ceiling: int, st': Selection)
    requires i < |cands| && TakenInto(st, e, ceiling, st') && Placed(cands, i, st)
    requires e.position == i && e.lot == cands[i]
    requires e.quantity <= e.lot.security.quantity && e.value == e.quantity * e.lot.unitValue
    ensures Placed(cands, i + 1, st')
  {
    PlanSnoc(st.plan, e);
    assert forall k :: 0 <= k < |st.plan| ==> st'.plan[k] == st.plan[k];
    forall p ensures Get(st'.changed, p, 0) == TakenAt(st'.plan, p) {
      if p != i {
        assert Get(st'.changed, p, 0) == Get(st.changed, p, 0);
      }
    }
  }

  lemma TakeOvershoot(st: Selection, e: Reallocation, ceiling: int, st': Selection)
    requires TakenInto(st, e, ceiling, st') && st.rqvLeft > 0 && Overshoot(st)
    requires ceiling >= e.lot.unitValue
    requires e.lot.unitValue == 0 ==> e.value == 0
    requires e.value <= Min(ceiling, st.rqvLeft) || (e.lot.unitValue > 0 && e.value < Min(ceiling, st.rqvLeft) + e.lot.unitValue)
    ensures Overshoot(st')
  {
    PlanSnoc(st.plan, e);
    var form := e.lot.security.collateralForm;
    var u := e.lot.unitValue;
    assert st'.rqvLeft + u > 0;
    forall f | FormValue(st'.plan, f) > 0
      ensures Get(st'.ceilingLeft, f, 0) + MaxUnitOf(st'.plan, f) > 0
    {
      if f == form {
        assert Get(st'.ceilingLeft, f, 0) == ceiling - e.value;
        if u > 0 {
          assert ceiling - e.value + u > 0;
        } else {
          assert e.value == 0;
        }
      } else {
        assert Get(st'.ceilingLeft, f, 0) == Get(st.ceilingLeft, f, 0);
      }
    }
  }

  lemma TakeOutstanding(st: Selection, e: Reallocation, ceiling: int, st': Selection, rqv: int, ceilings: map<string, int>)
    requires TakenInto(st, e, ceiling, st') && st.rqvLeft > 0
    requires Accounted(st, rqv, ceilings) && TakenWhileOutstanding(st, rqv)
    ensures TakenWhileOutstanding(st', rqv)
  {
    PlanSnoc(st.plan, e);
  }

  lemma SkipKeeps(cands: seq<Candidate>, i: nat, rqv: int, ceilings: map<string, int>, st: Selection)
    requires i < |cands| && Invariant(cands, i, rqv, ceilings, st)
    requires Get(st.ceilingLeft, cands[i].security.collateralForm, 0) < cands[i].unitValue || cands[i].unitValue == 0
    ensures Invariant(cands, i + 1, rqv, ceilings, st)
  {
    assert cands[..i + 1][..i] == cands[..i];
    assert Total(cands[..i + 1]) == Total(cands[..i]) + cands[i].lotValue;
  }

  /** Taking entry e from candidate i keeps the invariant and only lowers
      the ceiling of e's form. */
  lemma TakeKeeps(cands: seq<Candidate>, i: nat, rqv: int, ceilings: map<string, int>, st: Selection,
                  e: Reallocation, ceiling: int, st': Selection)
    requires i < |cands| && st.rqvLeft > 0 && Invariant(cands, i, rqv, ceilings, st)
    requires TakenInto(st, e, ceiling, st') && e.position == i && e.lot == cands[i]
    requires ceiling >= e.lot.unitValue
    requires e.quantity <= e.lot.security.quantity && e.value == e.quantity * e.lot.unitValue
    requires 0 <= e.value <= cands[i].lotValue
    requires e.value <= Min(ceiling, st.rqvLeft) || (e.lot.unitValue > 0 && e.value < Min(ceiling, st.rqvLeft) + e.lot.unitValue)
    requires Decide(e.lot.unitValue, e.lot.security.quantity, ceiling, st.rqvLeft).Take?
    requires e.quantity == Decide(e.lot.unitValue, e.lot.security.quantity, ceiling, st.rqvLeft).quantity
    ensures Invariant(cands, i + 1, rqv, ceilings, st')
    ensures forall f :: Get(st'.ceilingLeft, f, 0) <= Get(st.ceilingLeft, f, 0)
  {
    assert e.lot.unitValue == 0 ==> e.value == 0;
    TakeAccounted(st, e, ceiling, st', rqv, ceilings);
    TakePlaced(cands, i, st, e, ceiling, st');
    TakeOvershoot(st, e, ceiling, st');
    TakeOutstanding(st, e, ceiling, st', rqv, ceilings);
    TakeExhausts(cands, i, st, e, ceiling, st');
    TakeWithinAvailable(cands, i, st, e, st');
    var form := e.lot.security.collateralForm;
    forall f ensures Get(st'.ceilingLeft, f, 0) <= Get(st.ceilingLeft, f, 0) {
      if f == form {
        assert Get(st'.ceilingLeft, f, 0) == ceiling - e.value;
      }
    }
  }

  /** One iteration keeps the invariant, and only lowers ceilings and RQVLeft. */
  lemma StepKeeps(cands: seq<Candidate>, i: nat, rqv: int, ceilings: map<string, int>, st: Selection)
    requires i < |cands| && st.rqvLeft > 0 && AllWellFormed(cands)
    requires Invariant(cands, i, rqv, ceilings, st)
    ensures Invariant(cands, i + 1, rqv, ceilings, Step(cands[i], i, st))
    ensures forall f :: Get(Step(cands[i], i, st).ceilingLeft, f, 0) <= Get(st.ceilingLeft, f, 0)
    ensures Step(cands[i], i, st).rqvLeft <= st.rqvLeft
  {
    var c := cands[i];
    var ceiling := Get(st.ceilingLeft, c.security.collateralForm, 0);
    var d := Decide(c.unitValue, c.security.quantity, ceiling, st.rqvLeft);
    if d.Skip? {
      SkipKeeps(cands, i, rqv, ceilings, st);
    } else {
      var e := Reallocation(i, c, d.quantity, d.quantity * c.unitValue);
      assert WellFormed(c);
      MulWithin(d.quantity, c.security.quantity, c.unitValue);
      TakeKeeps(cands, i, rqv, ceilings, st, e, ceiling, Step(c, i, st));
    }
  }

  lemma TakeWithinAvailable(cands: seq<Candidate>, i: nat, st: Selection, e: Reallocation, st': Selection)
    requires i < |cands| && st'.plan == st.plan + [e] && e.value <= cands[i].lotValue
    requires PlanValue(st.plan) <= Total(cands[..i])
    ensures PlanValue(st'.plan) <= Total(cands[..i + 1])
  {
    PlanSnoc(st.plan, e);
    assert cands[..i + 1][..i] == cands[..i];
  }

  lemma TakeExhausts(cands: seq<Candidate>, i: nat, st: Selection, e: Reallocation, ceiling: int, st': Selection)
    requires i < |cands| && TakenInto(st, e, ceiling, st') && st.rqvLeft > 0
    requires e.position == i && e.lot == cands[i] && e.value >= 0
    requires Decide(e.lot.unitValue, e.lot.security.quantity, ceiling, st.rqvLeft).Take?
    requires e.quantity == Decide(e.lot.unitValue, e.lot.security.quantity, ceiling, st.rqvLeft).quantity
    requires e.value == e.quantity * e.lot.unitValue
    requires forall j :: 0 <= j < i ==> Exhausted(cands[j], j, st)
    ensures st'.rqvLeft > 0 ==> forall j :: 0 <= j < i + 1 ==> Exhausted(cands[j], j, st')
  {
    PlanSnoc(st.plan, e);
    var form := e.lot.security.collateralForm;
    if st'.rqvLeft > 0 {
      forall j | 0 <= j < i + 1 ensures Exhausted(cands[j], j, st') {
        var g := cands[j].security.collateralForm;
        assert Get(st'.ceilingLeft, g, 0) <= Get(st.ceilingLeft, g, 0);
      }
    }
  }

  lemma {:induction false} GreedyFromKeeps(cands: seq<Candidate>, i: nat, rqv: int, ceilings: map<string, int>, st: Selection)
    requires i <= |cands| && AllWellFormed(cands) && Invariant(cands, i, rqv, ceilings, st)
    ensures Invariant(cands, |cands|, rqv, ceilings, GreedyFrom(cands, i, st))
    ensures forall f :: Get(GreedyFrom(cands, i, st).ceilingLeft, f, 0) <= Get(st.ceilingLeft, f, 0)
    decreases |cands| - i
  {
    if i == |cands| {
    } else if st.rqvLeft <= 0 {
      TotalPrefixMonotone(cands, i);
      assert cands[..|cands|] == cands;
    } else {
      StepKeeps(cands, i, rqv, ceilings, st);
      GreedyFromKeeps(cands, i + 1, rqv, ceilings, Step(cands[i], i, st));
    }
  }

  /** The invariant holds of the finished pass. */
  lemma GreedyKeeps(cands: seq<Candidate>, ceilings: map<string, int>, rqv: int)
    requires AllWellFormed(cands)
    ensures Invariant(cands, |cands|, rqv, ceilings, Greedy(cands, ceilings, rqv))
    ensures forall f :: Get(Greedy(cands, ceilings, rqv).ceilingLeft, f, 0) <= Get(ceilings, f, 0)
  {
    GreedyFromKeeps(cands, 0, rqv, ceilings, Selection([], rqv, ceilings, map[]));
  }

  /** Lockstep decrement: the RQV covered and each form's ceiling used equal
      the values in the plan, in total and per form. */
  lemma GreedyAccounts(cands: seq<Candidate>, ceilings: map<string, int>, rqv: int)
    requires AllWellFormed(cands)
    ensures var r := Greedy(cands, ceilings, rqv);
      && rqv - r.rqvLeft == PlanValue(r.plan)
      && forall f :: Get(ceilings, f, 0) - Get(r.ceilingLeft, f, 0) == FormValue(r.plan, f)
  {
    GreedyKeeps(cands, ceilings, rqv);
  }

  /** Bounded overshoot: the plan's value exceeds the RQV, and each form's
      share exceeds that form's ceiling, by less than one unit of a lot taken. */
  lemma GreedyOvershootBounded(cands: seq<Candidate>, ceilings: map<string, int>, rqv: int)
    requires AllWellFormed(cands)
    ensures var r := Greedy(cands, ceilings, rqv);
      && (r.plan != [] ==> PlanValue(r.plan) < rqv + MaxUnit(r.plan))
      && forall f :: FormValue(r.plan, f) > 0 ==> FormValue(r.plan, f) < Get(ceilings, f, 0) + MaxUnitOf(r.plan, f)
  {
    GreedyKeeps(cands, ceilings, rqv);
  }

  /** Every entry takes at most the lot's units at their unit value, from a
      candidate of the list, each candidate at most once and in list order;
      SecuritiesChanged holds the units taken from each candidate. */
  lemma GreedyTakesFromLots(cands: seq<Candidate>, ceilings: map<string, int>, rqv: int)
    requires AllWellFormed(cands)
    ensures var r := Greedy(cands, ceilings, rqv);
      && (forall k :: 0 <= k < |r.plan| ==>
            && r.plan[k].position < |cands|
            && r.plan[k].lot == cands[r.plan[k].position]
            && r.plan[k].quantity <= r.plan[k].lot.security.quantity
            && r.plan[k].value == r.plan[k].quantity * r.plan[k].lot.unitValue)
      && (forall k, l :: 0 <= k < l < |r.plan| ==> r.plan[k].position < r.plan[l].position)
      && (forall p :: Get(r.changed, p, 0) == TakenAt(r.plan, p))
  {
    GreedyKeeps(cands, ceilings, rqv);
  }

  /** Stop condition: no lot is taken once the RQV is covered, and a pass
      that ends short has left no candidate with anything usable: each was
      taken whole, carries no value, or its form's ceiling is below one of
      its units. */
  lemma GreedyStopsWhenCovered(cands: seq<Candidate>, ceilings: map<string, int>, rqv: int)
    requires AllWellFormed(cands)
    ensures var r := Greedy(cands, ceilings, rqv);
      && (forall k :: 0 <= k < |r.plan| ==> PlanValue(r.plan[..k]) < rqv)
      && (r.rqvLeft > 0 ==> forall j :: 0 <= j < |cands| ==> Exhausted(cands[j], j, r))
  {
    GreedyKeeps(cands, ceilings, rqv);
  }

  /** The plan never takes more value than the candidates hold, so a pass
      that covers the RQV implies the total eligible value reaches it; and
      ceilings only shrink. */
  lemma GreedyWithinAvailable(cands: seq<Candidate>, ceilings: map<string, int>, rqv: int)
    requires AllWellFormed(cands)
    ensures var r := Greedy(cands, ceilings, rqv);
      && PlanValue(r.plan) <= Total(cands)
      && (r.rqvLeft <= 0 ==> rqv <= Total(cands))
      && forall f :: Get(r.ceilingLeft, f, 0) <= Get(ceilings, f, 0)
  {
    GreedyKeeps(cands, ceilings, rqv);
    assert cands[..|cands|] == cands;
  }

  /** With positions strictly increasing, TakenAt finds each entry's own units. */
  lemma {:induction false} TakenAtDistinct(plan: seq<Reallocation>, k: nat)
    requires k < |plan|
    requires forall a, b :: 0 <= a < b < |plan| ==> plan[a].position < plan[b].position
    ensures TakenAt(plan, plan[k].position) == plan[k].quantity
    decreases |plan|
  {
    if k < |plan| - 1 {
      var prefix := plan[..|plan| - 1];
      assert prefix[k] == plan[k];
      TakenAtDistinct(prefix, k);
    }
  }

  lemma {:induction false} TakenAtWithin(cands: seq<Candidate>, plan: seq<Reallocation>, p: nat)
    requires p < |cands|
    requires forall k :: 0 <= k < |plan| ==>
      plan[k].position < |cands| && plan[k].lot == cands[plan[k].position] && plan[k].quantity <= plan[k].lot.security.quantity
    ensures TakenAt(plan, p) <= cands[p].security.quantity
    decreases |plan|
  {
    if plan != [] && plan[|plan| - 1].position != p {
      var prefix := plan[..|plan| - 1];
      assert forall k :: 0 <= k < |prefix| ==> prefix[k] == plan[k];
      TakenAtWithin(cands, prefix, p);
    }
  }

  /** SecuritiesChanged never records more units than a candidate holds, and
      records for each taken candidate exactly the units of its plan entry. */
  lemma GreedyTakesWithinLots(cands: seq<Candidate>, ceilings: map<string, int>, rqv: int)
    requires AllWellFormed(cands)
    ensures var r := Greedy(cands, ceilings, rqv);
      && (forall p :: 0 <= p < |cands| ==> Get(r.changed, p, 0) <= cands[p].security.quantity)
      && (forall k :: 0 <= k < |r.plan| ==> Get(r.changed, r.plan[k].position, 0) == r.plan[k].quantity)
  {
    GreedyKeeps(cands, ceilings, rqv);
    var r := Greedy(cands, ceilings, rqv);
    forall p | 0 <= p < |cands|
      ensures Get(r.changed, p, 0) <= cands[p].security.quantity
    {
      TakenAtWithin(cands, r.plan, p);
    }
    forall k | 0 <= k < |r.plan|
      ensures Get(r.changed, r.plan[k].position, 0) == r.plan[k].quantity
    {
      TakenAtDistinct(r.plan, k);
    }
  }

  /** Every entry takes units of positive value from a form whose ceiling
      is positive. */
  ghost predicate Backed(plan: seq<Reallocation>, ceilings: map<string, int>)
  {
    forall k :: 0 <= k < |plan| ==>
      plan[k].lot.unitValue > 0 && Get(ceilings, plan[k].lot.security.collateralForm, 0) > 0
  }

  lemma StepBacked(c: Candidate, i: nat, ceilings: map<string, int>, st: Selection)
    requires st.rqvLeft > 0 && Backed(st.plan, ceilings)
    requires forall f :: Get(st.ceilingLeft, f, 0) <= Get(ceilings, f, 0)
    ensures Backed(Step(c, i, st).plan, ceilings)
    ensures forall f :: Get(Step(c, i, st).ceilingLeft, f, 0) <= Get(ceilings, f, 0)
  {
    var form := c.security.collateralForm;
    var ceiling := Get(st.ceilingLeft, form, 0);
    var d := Decide(c.unitValue, c.security.quantity, ceiling, st.rqvLeft);
    if d.Take? {
      var st' := Step(c, i, st);
      var v := d.quantity * c.unitValue;
      assert st'.plan == st.plan + [Reallocation(i, c, d.quantity, v)];
      forall f ensures Get(st'.ceilingLeft, f, 0) <= Get(ceilings, f, 0) {
        if f == form {
          assert Get(st'.ceilingLeft, f, 0) == ceiling - v;
        }
      }
    }
  }

  lemma {:induction false} GreedyFromBacked(cands: seq<Candidate>, i: nat, ceilings: map<string, int>, st: Selection)
    requires i <= |cands| && Backed(st.plan, ceilings)
    requires forall f :: Get(st.ceilingLeft, f, 0) <= Get(ceilings, f, 0)
    ensures Backed(GreedyFrom(cands, i, st).plan, ceilings)
    decreases |cands| - i
  {
    if i < |cands| && st.rqvLeft > 0 {
      StepBacked(cands[i], i, ceilings, st);
      GreedyFromBacked(cands, i + 1, ceilings, Step(cands[i], i, st));
    }
  }

  /** Only lots that carry value move, and only from forms the ceilings
      name with a positive amount: a lot without an FX rate, or of a form
      without a ceiling, stays where it is. */
  lemma GreedyTakesOnlyBackedLots(cands: seq<Candidate>, ceilings: map<string, int>, rqv: int)
    ensures var r := Greedy(cands, ceilings, rqv);
      forall k :: 0 <= k < |r.plan| ==>
        && r.plan[k].lot.unitValue > 0
        && r.plan[k].lot.security.collateralForm in ceilings
        && ceilings[r.plan[k].lot.security.collateralForm] > 0
  {
    GreedyFromBacked(cands, 0, ceilings, Selection([], rqv, ceilings, map[]));
  }

  /** Skip rule: a lot whose units carry no value, or whose form has less
      ceiling left than one of its units, leaves the plan, RQVLeft, every ceiling and SecuritiesChanged as
      they were, and the pass moves on to the next position. */
  lemma SkipLeavesSelection(cands: seq<Candidate>, i: nat, st: Selection)
    requires i < |cands| && st.rqvLeft > 0
    requires Get(st.ceilingLeft, cands[i].security.collateralForm, 0) < cands[i].unitValue || cands[i].unitValue == 0
    ensures Step(cands[i], i, st) == st
    ensures GreedyFrom(cands, i, st) == GreedyFrom(cands, i + 1, st)
  {
  }

  /** The selection loop of the allocation, over the sorted candidates. */
  method SelectLots(cands: seq<Candidate>, ceilings: map<string, int>, rqv: int) returns (sel: Selection)
    ensures sel == Greedy(cands, ceilings, rqv)
  {
    var plan: seq<Reallocation> := [];
    var rqvLeft := rqv;
    var ceilingLeft := ceilings;
    var changed: map<nat, nat> := map[];
    var i := 0;
    while i < |cands|
      invariant i <= |cands|
      invariant GreedyFrom(cands, i, Selection(plan, rqvLeft, ceilingLeft, changed)) == Greedy(cands, ceilings, rqv)
    {
      if rqvLeft <= 0 {
        break;
      }
      var c := cands[i];
      var form := c.security.collateralForm;
      var unit := c.unitValue;
      var ceiling := Get(ceilingLeft, form, 0);
      if unit > 0 && ceiling >= unit {
        var lot := unit * c.security.quantity;
        var q: nat;
        if lot <= ceiling {
          if lot <= rqvLeft {
            q := c.security.quantity;
          } else {
            q := CeilDiv(rqvLeft, unit);
          }
        } else {
          q := CeilDiv(ceiling, unit);
          if q > CeilDiv(rqvLeft, unit) {
            q := CeilDiv(rqvLeft, unit);
          }
          CeilDivMonotone(Min(ceiling, rqvLeft), ceiling, unit);
          CeilDivMonotone(Min(ceiling, rqvLeft), rqvLeft, unit);
        }
        var v := q * unit;
        rqvLeft := rqvLeft - v;
        ceilingLeft := ceilingLeft[form := ceiling - v];
        plan := plan + [Reallocation(i, c, q, v)];
        changed := changed[i := q];
      }
      i := i + 1;
    }
    sel := Selection(plan, rqvLeft, ceilingLeft, changed);
  }

  /** One decision of lines 681-743 as written: the skip test compares the
      ceiling with the MTM, the whole-lot tests compare one unit's value
      with the ceiling and RQVLeft and then move every unit while deducting
      one unit's value, quantities are rounded by the MTM, and the clamp to
      RQVLeft sits in the branch where the ceiling's units already cover it. */
  datatype WrittenDecision = WrittenSkip | WrittenTake(quantity: int, deducted: int)

  function DecideAsWritten(mtm: nat, unit: nat, quantity: nat, ceilingLeft: int, rqvLeft: int): (d: WrittenDecision)
    requires (mtm > 0 || unit == 0) && rqvLeft > 0
  {
    if ceilingLeft < mtm then WrittenSkip
    else if unit <= ceilingLeft then
      if unit <= rqvLeft then WrittenTake(quantity, unit)
      else
        var q := CeilDiv(rqvLeft, mtm);
        WrittenTake(q, q * mtm)
    else
      var q := CeilDiv(ceilingLeft, mtm);
      if q * mtm >= rqvLeft then WrittenTake(q, q * mtm)
      else
        var q' := Min(q, CeilDiv(rqvLeft, mtm));
        WrittenTake(q', q' * mtm)
  }

  /** A lot of 1000 units worth 1 each, ceiling 100, RQVLeft 10: as written
      all 1000 units move while RQVLeft and the ceiling drop by 1; the
      corrected decision takes the 10 units that cover RQVLeft. */
  lemma DecideAsWrittenMovesLotForOneUnit()
    ensures DecideAsWritten(1, 1, 1000, 100, 10) == WrittenTake(1000, 1)
    ensures Decide(1, 1000, 100, 10) == Take(10)
  {
  }

  /** The skip test of line 681 and the quotients of lines 700, 714 and 731
      use the MTM where the lot's unit value is meant. MTM 10 at FX rate 20
      (unit value 200), 1000 units, ceiling 100, RQVLeft 1000: as written 10
      units worth 2000 move against a deduction of 100; the corrected
      decision skips the lot, one of whose units exceeds the ceiling. */
  lemma DecideAsWrittenUsesMtm()
    ensures DecideAsWritten(10, 200, 1000, 100, 1000) == WrittenTake(10, 100)
    ensures Decide(200, 1000, 100, 1000) == Skip
  {
    var q := CeilDiv(100, 10);
    assert q == 10;
    assert q * 10 < 1000;
    var r := CeilDiv(1000, 10);
    assert r == 100;
    assert Min(q, r) == 10;
  }

  /** A lot with no FX rate for its currency has unit value 0. MTM 5, 100
      units, ceiling 50, RQVLeft 1000: as written the whole lot moves and
      nothing is deducted; the corrected decision skips it. */
  lemma DecideAsWrittenMovesUnpricedLot()
    ensures DecideAsWritten(5, 0, 100, 50, 1000) == WrittenTake(100, 0)
    ensures DecideAsWritten(0, 0, 100, 50, 1000) == WrittenTake(100, 0)
    ensures Decide(0, 100, 50, 1000) == Skip
  {
  }

  /** A Gilt lot of a form validation dropped (no ceiling) in a currency
      without an FX rate: the lot is skipped and the pass takes nothing. */
  lemma UnpricedLotStays()
    ensures var l := Candidate(Security("G", "PL1", "Gilt", 100, "Bond", "Gilt", 5, "GBP"), 1, 0, 0);
      && DecideAsWritten(5, 0, 100, 0, 1000) == WrittenSkip
      && Decide(0, 100, 0, 1000) == Skip
      && Greedy([l], map[], 1000).plan == []
  {
    var l := Candidate(Security("G", "PL1", "Gilt", 100, "Bond", "Gilt", 5, "GBP"), 1, 0, 0);
    var s0 := Selection([], 1000, map[], map[]);
    assert Step(l, 0, s0) == s0;
    assert GreedyFrom([l], 1, s0) == s0;
  }

  /** MTM 10 at FX rate 20 (unit value 200), 1000 units, ceiling 150, RQVLeft
      5: the ceiling's 15 MTM units cover RQVLeft, so as written all 15 are
      taken; the clamp of line 731, on the other branch, would have taken
      the one unit that covers RQVLeft. The corrected decision skips the
      lot, one of whose units exceeds the ceiling. */
  lemma DecideAsWrittenSkipsClamp()
    ensures DecideAsWritten(10, 200, 1000, 150, 5) == WrittenTake(15, 150)
    ensures Min(CeilDiv(150, 10), CeilDiv(5, 10)) == 1
    ensures Decide(200, 1000, 150, 5) == Skip
  {
    assert CeilDiv(150, 10) == 15;
    assert CeilDiv(5, 10) == 1;
  }

  /** A lot whose value equals both the remaining ceiling and RQVLeft is
      taken whole, leaving nothing outstanding, and the pass ends there. */
  lemma WholeLotAtBoundary(c: Candidate, i: nat, st: Selection)
    requires c.lotValue == c.unitValue * c.security.quantity
    requires st.rqvLeft > 0 && c.lotValue == st.rqvLeft
    requires Get(st.ceilingLeft, c.security.collateralForm, 0) == st.rqvLeft
    ensures Step(c, i, st).rqvLeft == 0
    ensures Step(c, i, st).plan == st.plan + [Reallocation(i, c, c.security.quantity, c.lotValue)]
    ensures Get(Step(c, i, st).ceilingLeft, c.security.collateralForm, 0) == 0
    ensures forall cands: seq<Candidate> :: i < |cands| ==> GreedyFrom(cands, i + 1, Step(c, i, st)) == Step(c, i, st)
  {
    assert c.unitValue > 0;
  }
}
