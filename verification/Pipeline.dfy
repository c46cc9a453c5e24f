/** Loader.runPipeline: the sixteen load loops in dependency order. */
module Pipeline {
  import opened Basics
  import opened LoadReport
  import opened BatchLoad
  import opened WriteConditions
  import Validation

  /** The order of the calls in runPipeline: roots, masters, facts. */
  function Nth(n: int): Entity
    requires 0 <= n < 16
  {
    match n
    case 0 => Category
    case 1 => Supplier
    case 2 => Location
    case 3 => Products
    case 4 => SupplySpec
    case 5 => OrderRule
    case 6 => ProductBarcodes
    case 7 => Promo
    case 8 => SupplyPlan
    case 9 => StoreAssortment
    case 10 => LifecycleEvents
    case 11 => MasterChangeLog
    case 12 => ReceiptLine
    case 13 => LocationStockSnapshot
    case 14 => StockMovement
    case 15 => SupplierStockSnapshot
  }

  function BatchSize(e: Entity): (n: nat)
    ensures n > 0
  {
    match e
    case LifecycleEvents => 1000
    case MasterChangeLog => 1000
    case ReceiptLine => 1000
    case LocationStockSnapshot => 1000
    case StockMovement => 1000
    case SupplierStockSnapshot => 1000
    case _ => 500
  }

  function Rank(e: Entity): int {
    match e
    case Category => 0
    case Supplier => 1
    case Location => 2
    case Products => 3
    case SupplySpec => 4
    case OrderRule => 5
    case ProductBarcodes => 6
    case Promo => 7
    case SupplyPlan => 8
    case StoreAssortment => 9
    case LifecycleEvents => 10
    case MasterChangeLog => 11
    case ReceiptLine => 12
    case LocationStockSnapshot => 13
    case StockMovement => 14
    case SupplierStockSnapshot => 15
  }

  lemma DependencyOrder(e: Entity)
    ensures 0 <= Rank(e) < 16 && Nth(Rank(e)) == e
  {
  }

  /** The call `first` comes before the call `second`, and its table is an upserted one, so that a foreign key of
      `second` can name it. */
  ghost predicate Precedes(first: Entity, second: Entity) { Rank(first) < Rank(second) && KindOf(first) == Upsert }

  /** Every table is loaded after the tables that its foreign keys name; only a category names its own table. The
      partitioned tables and the change log have no foreign keys. */
  lemma ForeignKeysPointBack()
    ensures Precedes(Category, Products)
    ensures Precedes(Products, SupplySpec) && Precedes(Supplier, SupplySpec)
    ensures Precedes(Location, OrderRule) && Precedes(Products, OrderRule) && Precedes(Category, OrderRule)
    ensures Precedes(Products, ProductBarcodes)
    ensures Precedes(Location, Promo) && Precedes(Products, Promo)
    ensures Precedes(Location, SupplyPlan) && Precedes(Products, SupplyPlan) && Precedes(Supplier, SupplyPlan)
    ensures Precedes(Location, StoreAssortment) && Precedes(Products, StoreAssortment)
    ensures Precedes(Location, LifecycleEvents) && Precedes(Products, LifecycleEvents)
  {
  }

  /** The load as the sixteen calls write it. */
  lemma CallsInOrder()
    ensures Rank(Category) < Rank(Supplier) < Rank(Location) < Rank(Products) < Rank(SupplySpec) < Rank(OrderRule)
    ensures Rank(OrderRule) < Rank(ProductBarcodes) < Rank(Promo) < Rank(SupplyPlan) < Rank(StoreAssortment)
    ensures Rank(StoreAssortment) < Rank(LifecycleEvents) < Rank(MasterChangeLog) < Rank(ReceiptLine)
    ensures Rank(ReceiptLine) < Rank(LocationStockSnapshot) < Rank(StockMovement) < Rank(SupplierStockSnapshot)
  {
  }

  lemma RankAt(i: nat)
    requires i < 16
    ensures Rank(Nth(i)) == i
  {
  }

  ghost function AcceptedRows(cfg: Settings, e: Entity, feed: Feed): seq<Row> {
    if feed.Lines? then RowsOf(ScanOf(cfg, e, feed.items).accepted) else []
  }

  ghost function ProgressOf(cfg: Settings, e: Entity, feed: Feed): Progress {
    if feed.Unavailable? then Progress(0, 0)
    else
      var s := ScanOf(cfg, e, feed.items);
      Progress(|s.accepted| + |s.rejected|, |s.rejected|)
  }

  /** The sequential load of the first n entities: every accepted row, in source order. */
  ghost function LoadUpTo(cfg: Settings, feeds: Entity -> Feed, base: Tables, n: nat): Result<Tables, Refusal>
    requires n <= 16
  {
    if n == 0 then Ok(base)
    else
      match LoadUpTo(cfg, feeds, base, n - 1)
      case Err(x) => Err(x)
      case Ok(t) => WriteAll(t, Nth(n - 1), AcceptedRows(cfg, Nth(n - 1), feeds(Nth(n - 1))))
  }

  /** A failed pipeline leaves the entities before e complete and whole batches of e. */
  ghost predicate StoppedAt(cfg: Settings, feeds: Entity -> Feed, base: Tables, tables: Tables, e: Entity, done: nat) {
    var rows := AcceptedRows(cfg, e, feeds(e));
    && 0 <= Rank(e) < 16 && done <= |rows|
    && (WholeBatches(done, if Rank(e) < Rank(LifecycleEvents) then 500 else 1000) || done == |rows|)
    && var before := LoadUpTo(cfg, feeds, base, Rank(e));
    before.Ok? && WriteAll(before.value, e, rows[..done]) == Ok(tables)
  }

  // ---------------------------------------------------------------- references

  /** Every accepted row refers only to keys of accepted rows of its parent entities or, in its own table, to its own
      key or that of an earlier accepted row. */
  ghost predicate ReferenceClosed(cfg: Settings, feeds: Entity -> Feed) {
    forall e, i: nat, ref | i < |AcceptedRows(cfg, e, feeds(e))| && ref in AcceptedRows(cfg, e, feeds(e))[i].refs ::
      RefClosed(cfg, feeds, e, i, ref)
  }

  ghost predicate RefClosed(cfg: Settings, feeds: Entity -> Feed, e: Entity, i: nat, ref: (Entity, Key))
    requires i < |AcceptedRows(cfg, e, feeds(e))|
  {
    if ref.0 == e then KindOf(e) == Upsert && HasKeyed(AcceptedRows(cfg, e, feeds(e))[..i + 1], ref.1)
    else Precedes(ref.0, e) && HasKeyed(AcceptedRows(cfg, ref.0, feeds(ref.0)), ref.1)
  }

  ghost predicate Present(ts: Tables, e: Entity, rows: seq<Row>) {
    forall row | row in rows :: HasRow(ts, (e, row.key))
  }

  /** Writing keeps every key there is, and adds those written to a keyed table. */
  lemma {:induction false} WriteAllKeeps(ts: Tables, e: Entity, rows: seq<Row>)
    requires WriteAll(ts, e, rows).Ok?
    ensures var u := WriteAll(ts, e, rows).value;
            && (forall ref | HasRow(ts, ref) :: HasRow(u, ref))
            && (KindOf(e) == Upsert ==> Present(u, e, rows))
  {
    hide WriteRow, KindOf;
    if rows != [] {
      var init, last := rows[..|rows| - 1], rows[|rows| - 1];
      WriteAllKeeps(ts, e, init);
      WriteRowKeeps(WriteAll(ts, e, init).value, e, last);
      assert rows == init + [last];
    }
  }

  lemma WriteRowKeeps(ts: Tables, e: Entity, row: Row)
    requires WriteRow(ts, e, row).Ok?
    ensures var u := WriteRow(ts, e, row).value;
            && (forall ref | HasRow(ts, ref) :: HasRow(u, ref))
            && (KindOf(e) == Upsert ==> HasRow(u, (e, row.key)))
  {}

  /** Rows whose references are met when their turn comes are never refused for a foreign key. */
  lemma {:induction false} NoForeignKeyRefusal(ts: Tables, e: Entity, rows: seq<Row>)
    requires RefsMet(ts, e, rows)
    ensures WriteAll(ts, e, rows) != Err(ForeignKey)
  {
    hide WriteRow, RefsMet, RefsMetAt, Dangling, RowAfter, TableOf, Lookup;
    if rows != [] {
      var init := rows[..|rows| - 1];
      RefsOneMore(e, ts, rows);
      NoForeignKeyRefusal(ts, e, init);
      if WriteAll(ts, e, init).Ok? {
        var u := WriteAll(ts, e, init).value;
        WriteAllAdds(ts, e, init);
        RefsOfLast(u, ts, e, rows);
        OnlyDanglingIsForeign(u, e, rows[|rows| - 1]);
      }
    }
  }

  lemma OnlyDanglingIsForeign(ts: Tables, e: Entity, row: Row)
    ensures WriteRow(ts, e, row) == Err(ForeignKey) ==> Dangling(ts, e, row)
  {
  }

  /** What the loop keeps: everything loaded so far is in the tables. */
  ghost predicate LoadedSoFar(cfg: Settings, feeds: Entity -> Feed, ts: Tables, n: nat) {
    forall e: Entity :: Rank(e) < n && KindOf(e) == Upsert ==> Present(ts, e, AcceptedRows(cfg, e, feeds(e)))
  }

  lemma ReferencesAreThere(cfg: Settings, feeds: Entity -> Feed, ts: Tables, e: Entity)
    requires ReferenceClosed(cfg, feeds) && LoadedSoFar(cfg, feeds, ts, Rank(e))
    requires 0 <= Rank(e)
    ensures WriteAll(ts, e, AcceptedRows(cfg, e, feeds(e))) != Err(ForeignKey)
  {
    hide AcceptedRows, WriteAll, ReferenceClosed, LoadedSoFar;
    ClosedRefsMet(cfg, feeds, ts, e);
    NoForeignKeyRefusal(ts, e, AcceptedRows(cfg, e, feeds(e)));
  }

  lemma ClosedRefsMet(cfg: Settings, feeds: Entity -> Feed, ts: Tables, e: Entity)
    requires ReferenceClosed(cfg, feeds) && LoadedSoFar(cfg, feeds, ts, Rank(e))
    ensures RefsMet(ts, e, AcceptedRows(cfg, e, feeds(e)))
  {
    hide AcceptedRows, HasKeyed;
    var rows := AcceptedRows(cfg, e, feeds(e));
    forall i: nat, ref | i < |rows| && ref in rows[i].refs
      ensures RefMet(ts, e, rows, i, ref)
    {
      assert RefClosed(cfg, feeds, e, i, ref);
      if ref.0 != e {
        DependencyOrder(e);
        KeyedIsPresent(ts, ref.0, AcceptedRows(cfg, ref.0, feeds(ref.0)), ref.1);
        assert ref == (ref.0, ref.1);
      }
    }
  }

  lemma KeyedIsPresent(ts: Tables, e: Entity, rows: seq<Row>, k: Key)
    requires Present(ts, e, rows) && HasKeyed(rows, k)
    ensures HasRow(ts, (e, k))
  {
    var i :| 0 <= i < |rows| && rows[i].key == k;
    assert rows[i] in rows;
  }

  lemma LoadedOneMore(cfg: Settings, feeds: Entity -> Feed, ts: Tables, u: Tables, n: nat)
    requires n < 16 && LoadedSoFar(cfg, feeds, ts, n)
    requires WriteAll(ts, Nth(n), AcceptedRows(cfg, Nth(n), feeds(Nth(n)))) == Ok(u)
    ensures LoadedSoFar(cfg, feeds, u, n + 1)
  {
    hide AcceptedRows, WriteAll;
    WriteAllKeeps(ts, Nth(n), AcceptedRows(cfg, Nth(n), feeds(Nth(n))));
    forall e: Entity | Rank(e) < n + 1 && KindOf(e) == Upsert ensures Present(u, e, AcceptedRows(cfg, e, feeds(e))) {
      DependencyOrder(e);
      if Rank(e) < n { assert Present(ts, e, AcceptedRows(cfg, e, feeds(e))); }
    }
  }

  /** The source of the entity is up, or it is the one that may be missing. */
  ghost predicate IsUp(e: Entity, feed: Feed) {
    if feed.Unavailable? then e == SupplierStockSnapshot else !feed.broken
  }

  ghost predicate AllUp(feeds: Entity -> Feed) { forall e: Entity :: IsUp(e, feeds(e)) }

  ghost predicate NoFaultsAtAll(faults: (Entity, int) -> FlushFault) {
    forall e: Entity, k: int :: faults(e, k) == NoFault
  }

  lemma SomeFault(faults: (Entity, int) -> FlushFault, e: Entity, here: int -> FlushFault)
    requires (forall k :: here(k) == faults(e, k)) && exists k :: here(k) != NoFault
    ensures !NoFaultsAtAll(faults)
  {
    var k :| here(k) != NoFault;
    assert faults(e, k) != NoFault;
  }

  lemma {:induction false} FailureStays(cfg: Settings, feeds: Entity -> Feed, base: Tables, n: nat, m: nat)
    requires n <= m <= 16 && LoadUpTo(cfg, feeds, base, n).Err?
    ensures LoadUpTo(cfg, feeds, base, m) == LoadUpTo(cfg, feeds, base, n)
    decreases m - n
  {
    hide AcceptedRows, WriteAll, Nth;
    if n < m {
      FailureStays(cfg, feeds, base, n, m - 1);
    }
  }

  /** Runs the load loops one after the other and stops at the first that fails. */
  method RunPipeline(l: Loader, cfg: Settings, feeds: Entity -> Feed, faults: (Entity, int) -> FlushFault)
    returns (r: Result<Report, (Entity, Error)>)
    requires l.batch == [] && l.state.seen == map[]
    modifies l, l.state
    ensures r.Ok? ==> LoadUpTo(cfg, feeds, old(l.tables), 16) == Ok(l.tables)
    ensures r.Ok? ==> forall e: Entity :: e in r.value && r.value[e] == ProgressOf(cfg, e, feeds(e))
    ensures r.Err? ==> exists done :: StoppedAt(cfg, feeds, old(l.tables), l.tables, r.error.0, done)
    ensures r.Err? && ReferenceClosed(cfg, feeds) ==> r.error.1 != Refused(ForeignKey)
    // Every error has its cause, so without faults and with all sources up the pipeline does what the sequential
    // load does.
    ensures r.Err? && r.error.1 == Storage ==> !NoFaultsAtAll(faults)
    ensures r.Err? && r.error.1 == SourceUnavailable ==> !IsUp(r.error.0, feeds(r.error.0))
    ensures r.Err? && r.error.1.Refused? ==> LoadUpTo(cfg, feeds, old(l.tables), 16) == Err(r.error.1.why)
    ensures NoFaultsAtAll(faults) && AllUp(feeds) ==> (r.Ok? <==> LoadUpTo(cfg, feeds, old(l.tables), 16).Ok?)
  {
    hide AcceptedRows, WriteAll, ProgressOf, ReferenceClosed, StoppedAt, LoadedSoFar, Outcome, ScanOf, WriteRow, IsUp,
      NoFaultsAtAll;
    var report: Report := map[];
    ghost var base := l.tables;
    StartPipeline(cfg, feeds, base);
    var n := 0;
    while n < 16
      invariant 0 <= n <= 16
      invariant l.batch == [] && forall e: Entity :: Rank(e) >= n ==> l.state.SeenOf(e) == {}
      invariant forall e: Entity :: Rank(e) < n ==> e in report && report[e] == ProgressOf(cfg, e, feeds(e))
      invariant LoadUpTo(cfg, feeds, base, n) == Ok(l.tables)
      invariant LoadedSoFar(cfg, feeds, l.tables, n)
    {
      var e := Nth(n);
      RankAt(n);
      ghost var before := l.tables;
      var status, progress;
      ghost var done;
      var here := (i: int) => faults(e, i);
      status, progress, done := l.LoadEntity(cfg, e, feeds(e), BatchSize(e), here);
      EntityLoaded(cfg, feeds, base, before, l.tables, e, status, progress, done);
      if status.Err? {
        if status.error == Storage {
          SomeFault(faults, e, here);
        } else if status.error.Refused? {
          FailureStays(cfg, feeds, base, n + 1, 16);
        }
        return Err((e, status.error));
      }
      LoadedOneMore(cfg, feeds, before, l.tables, n);
      report := report[e := progress];
      n := n + 1;
    }
    forall e: Entity ensures e in report && report[e] == ProgressOf(cfg, e, feeds(e)) { DependencyOrder(e); }
    return Ok(report);
  }

  lemma StartPipeline(cfg: Settings, feeds: Entity -> Feed, base: Tables)
    ensures LoadedSoFar(cfg, feeds, base, 0) && LoadUpTo(cfg, feeds, base, 0) == Ok(base)
  {
    forall e: Entity ensures Rank(e) >= 0 { DependencyOrder(e); }
  }

  lemma NothingWritten(ts: Tables, e: Entity)
    ensures WriteAll(ts, e, []) == Ok(ts) && WholeBatches(0, BatchSize(e))
    ensures BatchSize(e) == if Rank(e) < Rank(LifecycleEvents) then 500 else 1000
  {
  }

  /** The contract of one load loop, read against the sequential load. */
  lemma EntityLoaded(cfg: Settings, feeds: Entity -> Feed, base: Tables, before: Tables, tables: Tables, e: Entity,
                     r: Result<(), Error>, p: Progress, done: nat)
    requires 0 <= Rank(e) < 16 && LoadUpTo(cfg, feeds, base, Rank(e)) == Ok(before)
    requires LoadedSoFar(cfg, feeds, before, Rank(e))
    requires feeds(e).Unavailable? ==> tables == before && p == Progress(0, 0) && done == 0
    requires feeds(e).Unavailable? ==> r == if e == SupplierStockSnapshot then Ok(()) else Err(SourceUnavailable)
    requires feeds(e).Lines? ==>
               Outcome(ScanOf(cfg, e, feeds(e).items), e, BatchSize(e), before, tables, feeds(e).broken, r, p, done)
    ensures r.Ok? ==> WriteAll(before, e, AcceptedRows(cfg, e, feeds(e))) == Ok(tables)
    ensures r.Ok? ==> p == ProgressOf(cfg, e, feeds(e))
    ensures r.Err? ==> StoppedAt(cfg, feeds, base, tables, e, done)
    ensures r.Err? && r.error == SourceUnavailable ==> !IsUp(e, feeds(e))
    ensures r.Err? && r.error.Refused? ==> WriteAll(before, e, AcceptedRows(cfg, e, feeds(e))) == Err(r.error.why)
    ensures r.Err? && ReferenceClosed(cfg, feeds) ==> r.error != Refused(ForeignKey)
  {
    hide ScanOf, WriteAll, LoadUpTo, Rank, RowsOf, LoadedSoFar, ReferenceClosed, BatchSize;
    var rows := AcceptedRows(cfg, e, feeds(e));
    assert rows[..|rows|] == rows;
    NothingWritten(before, e);
    if ReferenceClosed(cfg, feeds) { ReferencesAreThere(cfg, feeds, before, e); }
  }

  /** The counters of a finished pipeline: per entity, lines read = rows written + rows
      rejected, so the report is well formed. */
  lemma ReportIsConserved(cfg: Settings, feeds: Entity -> Feed, report: Report)
    requires forall e: Entity :: e in report && report[e] == ProgressOf(cfg, e, feeds(e))
    ensures WellFormed(report)
    ensures forall e: Entity :: report[e].lines == |AcceptedRows(cfg, e, feeds(e))| + report[e].failed
    ensures forall e: Entity :: report[e].lines == if feeds(e).Lines? then |feeds(e).items| else 0
  {
    forall e: Entity
      ensures report[e].lines == |AcceptedRows(cfg, e, feeds(e))| + report[e].failed
      ensures report[e].lines == if feeds(e).Lines? then |feeds(e).items| else 0
    {
      if feeds(e).Lines? { Validation.EveryLineIsCounted(cfg.host, cfg.rules(e), feeds(e).items); }
    }
  }
}
