/** The load loops (loader.go, loader_phase13.go): read a line, check it, collect it into a
    batch, write a full batch in one transaction; and the pipeline that runs the loop for
    all sixteen entities. */
module BatchLoad {
  import opened Basics
  import opened LoadReport
  import opened Validation

  type Key = seq<string>

  /** A row: its key; the rows that its foreign keys name; a second value that must be unique in its table (the sku of
      a product); the month of its date, for a table that is partitioned by months; whether its columns satisfy their
      types and the checks of the table; and the rest of it. */
  datatype Row = Row(key: Key, refs: set<(Entity, Key)>, sku: Option<string>, month: Option<int>, fits: bool, body: int)

  /** Keyed tables keep one row per key; append-only tables number their rows themselves; partitioned tables have a
      partition for each of the given months. */
  datatype Table = Table(rows: map<Key, Row>, appended: seq<Row>, months: set<int>)

  type Tables = map<Entity, Table>

  datatype WriteKind = Upsert | Insert | Append

  /** Why the database refuses a row, and why a load loop gives up. */
  datatype Refusal = BadValue | NoPartition | DuplicateKey | DuplicateSku | ForeignKey
  datatype Error = Refused(why: Refusal) | Storage | SourceUnavailable

  /** ON CONFLICT DO UPDATE, a plain INSERT with a client key, or a server-numbered INSERT. */
  function KindOf(e: Entity): WriteKind {
    match e
    case ReceiptLine => Insert
    case StockMovement => Insert
    case LifecycleEvents => Append
    case MasterChangeLog => Append
    case _ => Upsert
  }

  function TableOf(ts: Tables, e: Entity): Table { if e in ts then ts[e] else Table(map[], [], {}) }

  /** Another row of the table has the sku. */
  predicate SkuTaken(t: Table, row: Row) {
    row.sku.Some? && exists k | k in t.rows :: k != row.key && t.rows[k].sku == row.sku
  }

  /** The row that a foreign key names is there, or is the very row to be written. */
  predicate Resolves(ts: Tables, e: Entity, row: Row, ref: (Entity, Key)) {
    ref.1 in TableOf(ts, ref.0).rows || (KindOf(e) != Append && ref == (e, row.key))
  }

  predicate Dangling(ts: Tables, e: Entity, row: Row) {
    exists ref | ref in row.refs :: !Resolves(ts, e, row, ref)
  }

  /** One INSERT. Only the conflict on the key is resolved by an upsert. */
  function WriteRow(ts: Tables, e: Entity, row: Row): Result<Tables, Refusal> {
    var t := TableOf(ts, e);
    if !row.fits then Err(BadValue)
    else if row.month.Some? && row.month.value !in t.months then Err(NoPartition)
    else if KindOf(e) == Insert && row.key in t.rows then Err(DuplicateKey)
    else if SkuTaken(t, row) then Err(DuplicateSku)
    else if Dangling(ts, e, row) then Err(ForeignKey)
    else if KindOf(e) == Append then Ok(ts[e := t.(appended := t.appended + [row])])
    else Ok(ts[e := t.(rows := t.rows[row.key := row])])
  }

  /** The sequential load: one row after the other, stopping at the first that fails. */
  function WriteAll(ts: Tables, e: Entity, rows: seq<Row>): Result<Tables, Refusal> {
    if rows == [] then Ok(ts)
    else
      match WriteAll(ts, e, rows[..|rows| - 1])
      case Err(x) => Err(x)
      case Ok(u) => WriteRow(u, e, rows[|rows| - 1])
  }

  lemma {:induction false} WriteAllConcat(ts: Tables, e: Entity, a: seq<Row>, b: seq<Row>)
    requires WriteAll(ts, e, a).Ok?
    ensures WriteAll(ts, e, a + b) == WriteAll(WriteAll(ts, e, a).value, e, b)
  {
    if b == [] {
      assert a + b == a;
    } else {
      WriteAllConcat(ts, e, a, b[..|b| - 1]);
      assert (a + b)[..|a + b| - 1] == a + b[..|b| - 1];
    }
  }

  /** A failure stays a failure, with the same error, however many rows follow. */
  lemma {:induction false} WriteAllFails(ts: Tables, e: Entity, rows: seq<Row>, n: nat)
    requires n <= |rows| && WriteAll(ts, e, rows[..n]).Err?
    ensures WriteAll(ts, e, rows) == WriteAll(ts, e, rows[..n])
    decreases |rows|
  {
    if n < |rows| {
      assert rows[..|rows| - 1][..n] == rows[..n];
      WriteAllFails(ts, e, rows[..|rows| - 1], n);
    } else {
      assert rows[..n] == rows;
    }
  }

  lemma EmptyLoad(cfg: Settings, e: Entity, base: Tables)
    ensures ScanOf(cfg, e, []) == Scanned([], [], {}) && WriteAll(base, e, []) == Ok(base)
  {
  }

  type Line = Item<Row>

  function RowsOf(items: seq<Line>): (rows: seq<Row>)
    ensures |rows| == |items| && forall i | 0 <= i < |items| :: rows[i] == items[i].row
  {
    seq(|items|, i requires 0 <= i < |items| => items[i].row)
  }

  /** What the reader hands over: nothing, or all the lines and whether the stream broke off. */
  datatype Feed = Unavailable | Lines(items: seq<Line>, broken: bool)

  /** What goes wrong in one flush. A commit may fail after the server has applied it. */
  datatype FlushFault = NoFault | BeginFails | WriteFails(at: int) | CommitFails(applied: bool)

  ghost predicate NoFaults(faults: int -> FlushFault) { forall k: int :: faults(k) == NoFault }

  datatype Settings = Settings(host: Host, rules: Entity -> seq<Rule>)

  ghost function ScanOf(cfg: Settings, e: Entity, items: seq<Line>): Scanned<Row> {
    Scan(cfg.host, cfg.rules(e), items)
  }

  /** n is a multiple of size. */
  ghost predicate WholeBatches(n: nat, size: nat)
    requires size > 0
  {
    n == 0 || (n >= size && WholeBatches(n - size, size))
  }

  lemma NoBatchIsWhole(size: nat)
    requires size > 0
    ensures WholeBatches(0, size)
  {}

  /** Counter, reject log and seen keys after the given lines. */
  ghost predicate Counted(cfg: Settings, e: Entity, items: seq<Line>, p: Progress, logged: seq<(Entity, Line)>,
                          rejects: seq<(Entity, Line)>, seen: set<string>) {
    var s := ScanOf(cfg, e, items);
    seen == s.seen && p == Progress(|items|, |s.rejected|) && rejects == logged + Tagged(e, s.rejected)
  }

  lemma LineCounted(cfg: Settings, e: Entity, before: seq<Line>, it: Line, p: Progress, logged: seq<(Entity, Line)>,
                    rejects: seq<(Entity, Line)>, seen: set<string>, critical: bool)
    requires Counted(cfg, e, before, p, logged, rejects, seen)
    requires critical <==> HasCriticalIn(Violations(cfg.host, cfg.rules(e), it.payload, it.checkedAt, seen))
    ensures Counted(cfg, e, before + [it],
                    Progress(p.lines + 1, if critical then p.failed + 1 else p.failed), logged,
                    if critical then rejects + [(e, it)] else rejects,
                    SeenAfterAll(cfg.host, cfg.rules(e), it.payload, seen))
    ensures RowsOf(ScanOf(cfg, e, before + [it]).accepted) ==
            RowsOf(ScanOf(cfg, e, before).accepted) + if critical then [] else [it.row]
  {
    assert (before + [it])[..|before|] == before;
    var s, t := ScanOf(cfg, e, before), ScanOf(cfg, e, before + [it]);
    if critical {
      assert t == Scanned(s.accepted, s.rejected + [it], t.seen);
      assert Tagged(e, t.rejected) == Tagged(e, s.rejected) + [(e, it)];
    } else {
      assert t == Scanned(s.accepted + [it], s.rejected, t.seen);
    }
  }

  lemma CountedScan(cfg: Settings, e: Entity, items: seq<Line>, p: Progress, logged: seq<(Entity, Line)>,
                    rejects: seq<(Entity, Line)>, seen: set<string>)
    requires Counted(cfg, e, items, p, logged, rejects, seen)
    ensures var s := ScanOf(cfg, e, items); p == Progress(|s.accepted| + |s.rejected|, |s.rejected|)
  {
    EveryLineIsCounted(cfg.host, cfg.rules(e), items);
  }

  /** The table holds the first `done` of the rows, the batch the others. */
  ghost predicate Holds(base: Tables, tables: Tables, e: Entity, rows: seq<Row>, done: nat, batch: seq<Row>) {
    done <= |rows| && batch == rows[done..] && WriteAll(base, e, rows[..done]) == Ok(tables)
  }

  lemma HoldsMore(base: Tables, tables: Tables, e: Entity, rows: seq<Row>, done: nat, batch: seq<Row>, row: Row)
    requires Holds(base, tables, e, rows, done, batch)
    ensures Holds(base, tables, e, rows + [row], done, batch + [row])
  {
    assert (rows + [row])[..done] == rows[..done];
  }

  lemma HoldsSome(base: Tables, tables: Tables, e: Entity, rows: seq<Row>, done: nat, batch: seq<Row>)
    requires Holds(base, tables, e, rows, done, batch)
    ensures done <= |rows| == done + |batch| && WriteAll(base, e, rows[..done]) == Ok(tables)
  {
  }

  lemma FlushContinues(base: Tables, tables: Tables, e: Entity, rows: seq<Row>, done: nat, batch: seq<Row>, n: nat)
    requires Holds(base, tables, e, rows, done, batch) && n <= |batch|
    ensures WriteAll(base, e, rows[..done + n]) == WriteAll(tables, e, batch[..n])
  {
    WriteAllConcat(base, e, rows[..done], batch[..n]);
    assert rows[..done] + batch[..n] == rows[..done + n];
  }

  lemma WholeFlush(base: Tables, tables: Tables, e: Entity, rows: seq<Row>, done: nat, batch: seq<Row>)
    requires Holds(base, tables, e, rows, done, batch)
    ensures WriteAll(base, e, rows) == WriteAll(tables, e, batch)
  {
    FlushContinues(base, tables, e, rows, done, batch, |batch|);
    assert rows[..done + |batch|] == rows && batch[..|batch|] == batch;
  }

  /** A row that cannot be written stops the sequential load with the same error. */
  lemma ErrorOfPrefix(base: Tables, e: Entity, rows: seq<Row>, all: seq<Row>, done: nat, x: Error)
    requires done <= |rows| <= |all| && rows == all[..|rows|]
    requires x.Refused? ==> exists n | 0 <= n <= |rows| :: WriteAll(base, e, rows[..n]) == Err(x.why)
    ensures rows[..done] == all[..done]
    ensures x.Refused? ==> WriteAll(base, e, all) == Err(x.why)
  {
    if x.Refused? {
      var n: nat :| n <= |rows| && WriteAll(base, e, rows[..n]) == Err(x.why);
      assert rows[..n] == all[..n];
      WriteAllFails(base, e, all, n);
    }
  }

  lemma {:induction false} ScanPrefix(cfg: Settings, e: Entity, items: seq<Line>, i: nat)
    requires i <= |items|
    ensures RowsOf(ScanOf(cfg, e, items[..i]).accepted) <= RowsOf(ScanOf(cfg, e, items).accepted)
    decreases |items|
  {
    if i < |items| {
      assert items[..|items| - 1][..i] == items[..i];
      ScanPrefix(cfg, e, items[..|items| - 1], i);
    } else {
      assert items[..i] == items;
    }
  }

  /** How a load loop ends, against the sequential load of the accepted rows: on success all
      of them are in the table; on an error a whole number of batches is (or all of them, when
      the commit of the last batch was applied but not confirmed). A refused row is one the
      sequential load is refused, too. */
  ghost predicate Outcome(s: Scanned<Row>, e: Entity, size: nat, base: Tables, tables: Tables, broken: bool,
                          r: Result<(), Error>, p: Progress, done: nat)
    requires size > 0
  {
    var rows := RowsOf(s.accepted);
    && done <= |rows| && WriteAll(base, e, rows[..done]) == Ok(tables)
    && match r
       case Ok(_) => done == |rows| && p == Progress(|s.accepted| + |s.rejected|, |s.rejected|)
       case Err(SourceUnavailable) => broken && WholeBatches(done, size) && |rows| < done + size
       case Err(Storage) => WholeBatches(done, size) || (done == |rows| && !broken)
       case Err(Refused(why)) => WholeBatches(done, size) && WriteAll(base, e, rows) == Err(why)
  }

  /** Without faults and with an unbroken stream a load loop succeeds exactly when the sequential load does. */
  lemma SuccessIffWritable(cfg: Settings, e: Entity, feed: Feed, size: nat, base: Tables, tables: Tables,
                           faults: int -> FlushFault, r: Result<(), Error>, p: Progress, done: nat)
    requires feed.Lines? && size > 0
    requires Outcome(ScanOf(cfg, e, feed.items), e, size, base, tables, feed.broken, r, p, done)
    requires r == Err(Storage) ==> exists k :: faults(k) != NoFault
    ensures !feed.broken && NoFaults(faults) ==>
              (r.Ok? <==> WriteAll(base, e, RowsOf(ScanOf(cfg, e, feed.items).accepted)).Ok?)
  {
    hide ScanOf, WholeBatches, WriteAll;
    var rows := RowsOf(ScanOf(cfg, e, feed.items).accepted);
    assert rows[..|rows|] == rows;
  }

  class Loader {
    var tables: Tables
    var batch: seq<Row>
    var rejects: seq<(Entity, Line)>
    const state: State

    constructor (tables: Tables)
      ensures this.tables == tables && batch == [] && rejects == [] && fresh(state)
      ensures state.seen == map[]
    {
      this.tables, batch, rejects := tables, [], [];
      state := new State();
    }

    /** Writes the batch in one transaction: all of it or nothing of it. */
    method Flush(e: Entity, fault: FlushFault) returns (r: Result<(), Error>)
      modifies this`tables, this`batch
      ensures r.Ok? ==> WriteAll(old(tables), e, old(batch)) == Ok(tables) && batch == []
      // An empty batch opens no transaction, so that no fault can show.
      ensures r.Ok? <==>
              match fault
              case NoFault => WriteAll(old(tables), e, old(batch)).Ok?
              case BeginFails => old(batch) == []
              case WriteFails(at) => !(0 <= at < |old(batch)|) && WriteAll(old(tables), e, old(batch)).Ok?
              case CommitFails(_) => old(batch) == []
      ensures r == Err(Storage) ==> batch != [] && fault != NoFault && (fault.WriteFails? ==> 0 <= fault.at < |batch|)
      ensures r == Err(Storage) && fault == CommitFails(true) ==> WriteAll(old(tables), e, batch) == Ok(tables)
      ensures r.Err? ==> batch == old(batch)
      ensures r.Err? && tables != old(tables) ==>
                fault == CommitFails(true) && r.error == Storage && WriteAll(old(tables), e, batch) == Ok(tables)
      ensures r.Err? ==> !r.error.SourceUnavailable?
      ensures r.Err? && r.error.Refused? ==>
                exists n | 0 <= n <= |batch| :: WriteAll(old(tables), e, batch[..n]) == Err(r.error.why)
    {
      hide WriteRow;
      if |batch| == 0 { return Ok(()); }
      if fault == BeginFails { return Err(Storage); }
      var tx := tables;
      var i := 0;
      while i < |batch|
        invariant 0 <= i <= |batch|
        invariant tables == old(tables) && batch == old(batch)
        invariant WriteAll(old(tables), e, batch[..i]) == Ok(tx)
        invariant fault != BeginFails && (fault.WriteFails? ==> !(0 <= fault.at < i))
      {
        if fault == WriteFails(i) { return Err(Storage); }
        var w := WriteRow(tx, e, batch[i]);
        assert batch[..i + 1][..i] == batch[..i];
        if w.Err? {
          assert WriteAll(old(tables), e, batch[..i + 1]) == Err(w.error);
          WriteAllFails(old(tables), e, batch, i + 1);
          return Err(Refused(w.error));
        }
        tx := w.value;
        i := i + 1;
      }
      assert batch[..i] == batch;
      if fault.CommitFails? {
        if fault.applied { tables := tx; }
        return Err(Storage);
      }
      tables, batch := tx, [];
      return Ok(());
    }

    /** One load loop. `done` is the number of accepted rows that are in the table. */
    method LoadEntity(cfg: Settings, e: Entity, feed: Feed, batchSize: nat, faults: int -> FlushFault)
      returns (r: Result<(), Error>, p: Progress, ghost done: nat)
      requires batchSize > 0 && batch == [] && state.SeenOf(e) == {}
      modifies this, state
      ensures forall x | x != e :: state.SeenOf(x) == old(state.SeenOf(x))
      ensures feed.Unavailable? ==> tables == old(tables) && p == Progress(0, 0) && done == 0 && batch == []
      ensures feed.Unavailable? ==> r == if e == SupplierStockSnapshot then Ok(()) else Err(SourceUnavailable)
      ensures feed.Lines? && r.Ok? ==>
                !feed.broken && batch == [] && rejects == old(rejects) + Tagged(e, ScanOf(cfg, e, feed.items).rejected)
      ensures feed.Lines? ==>
                Outcome(ScanOf(cfg, e, feed.items), e, batchSize, old(tables), tables, feed.broken, r, p, done)
      ensures r == Err(Storage) ==> exists k :: faults(k) != NoFault
      ensures feed.Lines? && !feed.broken && NoFaults(faults) ==>
                (r.Ok? <==> WriteAll(old(tables), e, RowsOf(ScanOf(cfg, e, feed.items).accepted)).Ok?)
    {
      if feed.Unavailable? {
        // Only the supplier stock snapshot is optional.
        r := if e == SupplierStockSnapshot then Ok(()) else Err(SourceUnavailable);
        return r, Progress(0, 0), 0;
      }
      EmptyLoad(cfg, e, tables);
      ghost var base := tables;
      r, p, done := LoadLines(cfg, e, feed.items, feed.broken, batchSize, faults, rejects);
      SuccessIffWritable(cfg, e, feed, batchSize, base, tables, faults, r, p, done);
    }

    method LoadLines(cfg: Settings, e: Entity, items: seq<Line>, broken: bool, batchSize: nat, faults: int -> FlushFault,
                     ghost logged: seq<(Entity, Line)>)
      returns (r: Result<(), Error>, p: Progress, ghost done: nat)
      requires batchSize > 0 && Counted(cfg, e, [], Progress(0, 0), logged, rejects, state.SeenOf(e))
      requires Holds(tables, tables, e, RowsOf(ScanOf(cfg, e, []).accepted), 0, batch) && batch == []
      modifies this, state
      ensures forall x | x != e :: state.SeenOf(x) == old(state.SeenOf(x))
      ensures r.Ok? ==> !broken && batch == [] && Counted(cfg, e, items, p, logged, rejects, state.SeenOf(e))
      ensures Outcome(ScanOf(cfg, e, items), e, batchSize, old(tables), tables, broken, r, p, done)
      ensures r == Err(Storage) ==> exists k :: faults(k) != NoFault
    {
      hide ScanOf, Scan, WriteAll, WriteRow, RowsOf, Counted, Holds, WholeBatches;
      ghost var base := tables;
      ghost var rows := RowsOf(ScanOf(cfg, e, []).accepted);
      var i, flushes := 0, 0;
      p, done := Progress(0, 0), 0;
      NoBatchIsWhole(batchSize);
      assert items[..i] == [];
      while i < |items|
        invariant 0 <= i <= |items|
        invariant forall x | x != e :: state.SeenOf(x) == old(state.SeenOf(x))
        invariant rows == RowsOf(ScanOf(cfg, e, items[..i]).accepted)
        invariant Counted(cfg, e, items[..i], p, logged, rejects, state.SeenOf(e))
        invariant Holds(base, tables, e, rows, done, batch)
        invariant |batch| < batchSize && WholeBatches(done, batchSize)
      {
        assert items[..i] + [items[i]] == items[..i + 1];
        p := TakeLine(cfg, e, items[i], p, items[..i], logged, base, rows, done);
        i := i + 1;
        rows := RowsOf(ScanOf(cfg, e, items[..i]).accepted);
        if |batch| >= batchSize {
          r, done := FlushCounted(e, faults(flushes), base, rows, done, batchSize);
          flushes := flushes + 1;
          if r.Err? {
            ScanPrefix(cfg, e, items, i);
            ErrorOfPrefix(base, e, rows, RowsOf(ScanOf(cfg, e, items).accepted), done, r.error);
            return;
          }
        }
      }
      assert items[..i] == items;
      CountedScan(cfg, e, items, p, logged, rejects, state.SeenOf(e));
      if broken {
        r := Err(SourceUnavailable);
        HoldsSome(base, tables, e, rows, done, batch);
      } else {
        r, done := FlushCounted(e, faults(flushes), base, rows, done, batchSize);
        if r.Err? { ErrorOfPrefix(base, e, rows, rows, done, r.error); }
      }
    }

    /** One line: counted, checked, and either logged as rejected or put into the batch. */
    method TakeLine(cfg: Settings, e: Entity, it: Line, p: Progress, ghost before: seq<Line>,
                    ghost logged: seq<(Entity, Line)>, ghost base: Tables, ghost rows: seq<Row>, ghost done: nat)
      returns (q: Progress)
      requires Counted(cfg, e, before, p, logged, rejects, state.SeenOf(e))
      requires rows == RowsOf(ScanOf(cfg, e, before).accepted) && Holds(base, tables, e, rows, done, batch)
      modifies this`batch, this`rejects, state
      ensures Counted(cfg, e, before + [it], q, logged, rejects, state.SeenOf(e))
      ensures Holds(base, tables, e, RowsOf(ScanOf(cfg, e, before + [it]).accepted), done, batch)
      ensures |batch| <= |old(batch)| + 1
      ensures forall x | x != e :: state.SeenOf(x) == old(state.SeenOf(x))
    {
      hide WriteAll, WriteRow, Holds, Counted, ScanOf, RowsOf, HasCriticalIn;
      q := p.(lines := p.lines + 1);
      var violations := CheckLine(cfg.host, cfg.rules(e), e, it.payload, it.checkedAt, state);
      var critical := HasCritical(violations);
      LineCounted(cfg, e, before, it, p, logged, rejects, old(state.SeenOf(e)), critical);
      if critical {
        assert rows + [] == rows;
        q := q.(failed := q.failed + 1);
        rejects := rejects + [(e, it)];
      } else {
        HoldsMore(base, tables, e, rows, done, batch, it.row);
        batch := batch + [it.row];
      }
    }

    /** A flush seen from the whole stream: `rows` are the rows accepted so far. */
    method FlushCounted(e: Entity, fault: FlushFault, ghost base: Tables, ghost rows: seq<Row>, ghost before: nat,
                        ghost size: nat)
      returns (r: Result<(), Error>, ghost done: nat)
      requires Holds(base, tables, e, rows, before, batch) && size > 0 && |batch| <= size && WholeBatches(before, size)
      modifies this`tables, this`batch
      ensures r.Ok? ==> done == |rows| && batch == [] && Holds(base, tables, e, rows, done, batch)
      ensures r.Err? ==> done == before || (done == |rows| && r.error == Storage)
      ensures done <= |rows| && WriteAll(base, e, rows[..done]) == Ok(tables)
      ensures WholeBatches(done, size) || (done == |rows| && |old(batch)| < size)
      ensures r.Err? ==> !r.error.SourceUnavailable?
      ensures r == Err(Storage) ==> fault != NoFault
      ensures r.Err? && r.error.Refused? ==>
                exists n | 0 <= n <= |rows| :: WriteAll(base, e, rows[..n]) == Err(r.error.why)
    {
      hide WriteRow, WriteAll;
      ghost var t0, b0 := tables, batch;
      WholeFlush(base, tables, e, rows, before, batch);
      r := Flush(e, fault);
      done := if tables == t0 && r.Err? then before else |rows|;
      assert rows[..|rows|] == rows;
      if r.Err? && r.error.Refused? {
        ghost var n: nat :| n <= |b0| && WriteAll(t0, e, b0[..n]) == Err(r.error.why);
        FlushContinues(base, t0, e, rows, before, b0, n);
      }
    }
  }

  ghost function Tagged(e: Entity, items: seq<Line>): seq<(Entity, Line)> {
    seq(|items|, i requires 0 <= i < |items| => (e, items[i]))
  }
}
