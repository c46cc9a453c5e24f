/** The per-entity counters of one load, their totals and the quality gate
    (loader/types.go and the middle part of Loader.Run). */
module LoadReport {
  import opened Basics

  datatype Entity =
    | Category | Location | Supplier | Products | ProductBarcodes | StoreAssortment
    | LifecycleEvents | SupplySpec | Promo | OrderRule | SupplyPlan | MasterChangeLog
    | ReceiptLine | LocationStockSnapshot | StockMovement | SupplierStockSnapshot

  /** LinesTotal and LinesFailed of one entity. */
  datatype Progress = Progress(lines: nat, failed: nat)

  type Report = map<Entity, Progress>

  /** A report has a counter for every entity, and no entity failed more lines than it read. */
  ghost predicate WellFormed(r: Report) {
    forall e: Entity :: e in r && r[e].failed <= r[e].lines
  }

  ghost function SumOver(f: Entity -> nat, s: set<Entity>): nat {
    if s == {} then 0 else f(Pick(s)) + SumOver(f, s - {Pick(s)})
  }

  ghost function Pick(s: set<Entity>): (e: Entity)
    requires s != {}
    ensures e in s
  {
    var e :| e in s;
    e
  }

  ghost function LinesOf(r: Report): Entity -> nat { e => if e in r then r[e].lines else 0 }

  ghost function FailedOf(r: Report): Entity -> nat { e => if e in r then r[e].failed else 0 }

  ghost function TotalLines(r: Report): nat { SumOver(LinesOf(r), r.Keys) }

  ghost function TotalFailed(r: Report): nat { SumOver(FailedOf(r), r.Keys) }

  /** Whichever entity is taken out, exactly its own counter leaves the sum. */
  lemma {:induction false} SumTakeOut(f: Entity -> nat, s: set<Entity>, e: Entity)
    requires e in s
    ensures SumOver(f, s) == f(e) + SumOver(f, s - {e})
  {
    var x := Pick(s);
    if x != e {
      SumTakeOut(f, s - {x}, e);
      SumTakeOut(f, s - {e}, x);
      assert s - {x} - {e} == s - {e} - {x};
    }
  }

  lemma {:induction false} SumBounded(f: Entity -> nat, g: Entity -> nat, s: set<Entity>)
    requires forall e :: f(e) <= g(e)
    ensures SumOver(f, s) <= SumOver(g, s)
  {
    if s != {} {
      var e :| e in s;
      SumTakeOut(f, s, e);
      SumTakeOut(g, s, e);
      SumBounded(f, g, s - {e});
    }
  }

  /** The loop that adds the counters up. The source ranges over a Go map, so the order
      is arbitrary; whatever it is, the totals are the sums over all entities. */
  method Totals(r: Report) returns (total: nat, failed: nat)
    ensures total == TotalLines(r) && failed == TotalFailed(r)
  {
    total, failed := 0, 0;
    var todo := r.Keys;
    while todo != {}
      invariant todo <= r.Keys
      invariant total + SumOver(LinesOf(r), todo) == TotalLines(r)
      invariant failed + SumOver(FailedOf(r), todo) == TotalFailed(r)
      decreases todo
    {
      var e := AnyOf(todo);
      SumTakeOut(LinesOf(r), todo, e);
      SumTakeOut(FailedOf(r), todo, e);
      total, failed := total + r[e].lines, failed + r[e].failed;
      todo := todo - {e};
    }
  }

  /** More than one percent of the lines failed. */
  predicate OverThreshold(total: nat, failed: nat) {
    total > 0 && failed as real / total as real > 0.01
  }

  ghost predicate PassesGate(r: Report) { !OverThreshold(TotalLines(r), TotalFailed(r)) }

  lemma RatioAbove(x: real, y: real)
    requires y > 0.0
    ensures x / y > 0.01 <==> x > 0.01 * y
  {
    var q := x / y;
    assert x == q * y;
    if q > 0.01 {
      assert (q - 0.01) * y > 0.0;
    } else {
      assert (q - 0.01) * y <= 0.0;
    }
  }

  /** The gate in whole numbers: a well-formed report passes iff 100 * failed <= total. */
  lemma GateInWholeNumbers(r: Report)
    requires WellFormed(r)
    ensures PassesGate(r) <==> 100 * TotalFailed(r) <= TotalLines(r)
  {
    SumBounded(FailedOf(r), LinesOf(r), r.Keys);
    if TotalLines(r) > 0 { RatioAbove(TotalFailed(r) as real, TotalLines(r) as real); }
  }
}
