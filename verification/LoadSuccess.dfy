/** When a whole load succeeds, and what that means for the loads after it. */
module LoadSuccess {
  import opened Basics
  import opened LoadReport
  import opened BatchLoad
  import opened WriteConditions
  import opened Pipeline

  // One load.

  /** The row that a reference names was there before the load, comes with an entity loaded earlier, or comes no later
      than row i in the same table. */
  ghost predicate RefAround(cfg: Settings, feeds: Entity -> Feed, base: Tables, e: Entity, i: nat, ref: (Entity, Key))
    requires i < |AcceptedRows(cfg, e, feeds(e))|
  {
    || HasRow(base, ref) || LoadedRow(cfg, feeds, Rank(e), ref)
    || (KindOf(e) != Append && ref.0 == e && HasKeyed(AcceptedRows(cfg, e, feeds(e))[..i + 1], ref.1))
  }

  /** The key is accepted for a keyed table among the first n. */
  ghost predicate LoadedRow(cfg: Settings, feeds: Entity -> Feed, n: int, ref: (Entity, Key)) {
    Rank(ref.0) < n && KindOf(ref.0) != Append && HasKeyed(AcceptedRows(cfg, ref.0, feeds(ref.0)), ref.1)
  }

  ghost predicate RefsAround(cfg: Settings, feeds: Entity -> Feed, base: Tables, e: Entity) {
    var rows := AcceptedRows(cfg, e, feeds(e));
    forall i: nat, ref | i < |rows| && ref in rows[i].refs :: RefAround(cfg, feeds, base, e, i, ref)
  }

  /** Everything but the references. */
  ghost predicate OwnConditions(t: Table, e: Entity, rows: seq<Row>) {
    && AllFit(t, rows) && SkusFree(e, t, rows)
    && (e == ReceiptLine || e == StockMovement ==> NewKeys(t, rows))
  }

  ghost predicate Loadable(cfg: Settings, feeds: Entity -> Feed, base: Tables, e: Entity) {
    OwnConditions(TableOf(base, e), e, AcceptedRows(cfg, e, feeds(e))) && RefsAround(cfg, feeds, base, e)
  }

  /** After n entities: their keys are there and nothing else is new; the tables that are still to come are as before. */
  ghost predicate Reached(cfg: Settings, feeds: Entity -> Feed, base: Tables, ts: Tables, n: int) {
    && (forall e: Entity | Rank(e) >= n :: TableOf(ts, e) == TableOf(base, e))
    && (forall ref :: HasRow(ts, ref) <==> HasRow(base, ref) || LoadedRow(cfg, feeds, n, ref))
  }

  lemma RefsAgree(cfg: Settings, feeds: Entity -> Feed, base: Tables, ts: Tables, e: Entity)
    requires Reached(cfg, feeds, base, ts, Rank(e))
    ensures RefsMet(ts, e, AcceptedRows(cfg, e, feeds(e))) <==> RefsAround(cfg, feeds, base, e)
  {
    hide AcceptedRows, LoadedRow, HasRow, HasKeyed, TableOf, Rank, KindOf;
    var rows := AcceptedRows(cfg, e, feeds(e));
    if RefsMet(ts, e, rows) {
      forall i: nat, ref | i < |rows| && ref in rows[i].refs
        ensures RefAround(cfg, feeds, base, e, i, ref)
      {
        assert RefsMetAt(ts, e, rows, i);
        assert RefMet(ts, e, rows, i, ref);
      }
    }
    if RefsAround(cfg, feeds, base, e) {
      forall i: nat, ref | i < |rows| && ref in rows[i].refs
        ensures RefMet(ts, e, rows, i, ref)
      {
        assert RefAround(cfg, feeds, base, e, i, ref);
      }
    }
  }

  lemma LoadableIsWritable(cfg: Settings, feeds: Entity -> Feed, base: Tables, ts: Tables, e: Entity)
    requires Reached(cfg, feeds, base, ts, Rank(e))
    ensures Writable(ts, e, AcceptedRows(cfg, e, feeds(e))) <==> Loadable(cfg, feeds, base, e)
  {
    hide AcceptedRows, AllFit, NewKeys, SkusFree, RefsMet, RefsAround, HasRow, TableOf, LoadedRow;
    RefsAgree(cfg, feeds, base, ts, e);
  }

  lemma ReachedOneMore(cfg: Settings, feeds: Entity -> Feed, base: Tables, ts: Tables, n: nat)
    requires n < 16 && Reached(cfg, feeds, base, ts, n)
    requires WriteAll(ts, Nth(n), AcceptedRows(cfg, Nth(n), feeds(Nth(n)))).Ok?
    ensures Reached(cfg, feeds, base, WriteAll(ts, Nth(n), AcceptedRows(cfg, Nth(n), feeds(Nth(n)))).value, n + 1)
  {
    hide AcceptedRows, WriteAll, HasKeyed, RowAfter, TableOf;
    RankAt(n);
    var e := Nth(n);
    var rows := AcceptedRows(cfg, e, feeds(e));
    var u := WriteAll(ts, e, rows).value;
    WriteAllAdds(ts, e, rows);
    forall x: Entity | Rank(x) == n
      ensures x == e
    {
      DependencyOrder(x);
    }
    forall ref: (Entity, Key)
      ensures HasRow(u, ref) <==> HasRow(base, ref) || LoadedRow(cfg, feeds, n + 1, ref)
    {
      assert HasRow(ts, ref) <==> HasRow(base, ref) || LoadedRow(cfg, feeds, n, ref);
      if ref.0 == e {
        RowAfterIs(e, TableOf(ts, e), rows, ref.1);
        assert Lookup(TableOf(u, e), ref.1) == RowAfter(e, TableOf(ts, e), rows, ref.1);
      }
    }
  }

  ghost predicate LoadableUpTo(cfg: Settings, feeds: Entity -> Feed, base: Tables, n: int) {
    forall e: Entity | Rank(e) < n :: Loadable(cfg, feeds, base, e)
  }

  lemma LoadableOneMore(cfg: Settings, feeds: Entity -> Feed, base: Tables, n: nat)
    requires n < 16
    ensures LoadableUpTo(cfg, feeds, base, n + 1) <==>
            LoadableUpTo(cfg, feeds, base, n) && Loadable(cfg, feeds, base, Nth(n))
  {
    hide Loadable;
    RankAt(n);
    forall e: Entity | Rank(e) == n
      ensures e == Nth(n)
    {
      DependencyOrder(e);
    }
  }

  lemma NothingReached(cfg: Settings, feeds: Entity -> Feed, base: Tables)
    ensures Reached(cfg, feeds, base, base, 0) && LoadableUpTo(cfg, feeds, base, 0)
  {
    forall e: Entity
      ensures Rank(e) >= 0
    {
      DependencyOrder(e);
    }
  }

  /** The sequential load of the first n entities succeeds exactly when, for each of them, all values fit and all months
      have partitions, plain inserts bring new keys, no sku is held by another id when its turn comes, and every
      reference names a row that was there, was loaded before, or comes no later in its own table. */
  lemma {:induction false} LoadSucceeds(cfg: Settings, feeds: Entity -> Feed, base: Tables, n: nat)
    requires n <= 16
    ensures LoadUpTo(cfg, feeds, base, n).Ok? <==> LoadableUpTo(cfg, feeds, base, n)
    ensures LoadUpTo(cfg, feeds, base, n).Ok? ==> Reached(cfg, feeds, base, LoadUpTo(cfg, feeds, base, n).value, n)
  {
    hide AcceptedRows, WriteAll, Loadable, LoadableUpTo, Reached, Nth, Writable, Rank;
    if n == 0 {
      NothingReached(cfg, feeds, base);
    } else {
      LoadSucceeds(cfg, feeds, base, n - 1);
      LoadableOneMore(cfg, feeds, base, n - 1);
      if LoadUpTo(cfg, feeds, base, n - 1).Ok? {
        var ts, e := LoadUpTo(cfg, feeds, base, n - 1).value, Nth(n - 1);
        RankAt(n - 1);
        WritableIff(ts, e, AcceptedRows(cfg, e, feeds(e)));
        LoadableIsWritable(cfg, feeds, base, ts, e);
        if LoadUpTo(cfg, feeds, base, n).Ok? {
          ReachedOneMore(cfg, feeds, base, ts, n - 1);
        }
      }
    }
  }

  lemma ClosedRefsAround(cfg: Settings, feeds: Entity -> Feed, base: Tables, e: Entity)
    requires ReferenceClosed(cfg, feeds)
    ensures RefsAround(cfg, feeds, base, e)
  {
    hide AcceptedRows, HasKeyed;
    var rows := AcceptedRows(cfg, e, feeds(e));
    DependencyOrder(e);
    forall i: nat, ref | i < |rows| && ref in rows[i].refs
      ensures RefAround(cfg, feeds, base, e, i, ref)
    {
      assert RefClosed(cfg, feeds, e, i, ref);
    }
  }

  /** A source in which every reference is met by an accepted row is loaded exactly when each entity satisfies its own
      conditions: values, months, new keys for plain inserts, and skus. */
  lemma ClosedLoadSucceeds(cfg: Settings, feeds: Entity -> Feed, base: Tables, n: nat)
    requires n <= 16 && ReferenceClosed(cfg, feeds)
    ensures LoadUpTo(cfg, feeds, base, n).Ok? <==>
            forall e: Entity | Rank(e) < n :: OwnConditions(TableOf(base, e), e, AcceptedRows(cfg, e, feeds(e)))
  {
    hide AcceptedRows, OwnConditions, ReferenceClosed, RefsAround, Reached, LoadUpTo, TableOf;
    LoadSucceeds(cfg, feeds, base, n);
    forall e: Entity
      ensures RefsAround(cfg, feeds, base, e)
    {
      ClosedRefsAround(cfg, feeds, base, e);
    }
  }

  // The loads after it.

  /** What a load may leave behind: the sequential load, or a part of it. */
  ghost predicate Attempt(cfg: Settings, feeds: Entity -> Feed, base: Tables, after: Tables) {
    LoadUpTo(cfg, feeds, base, 16) == Ok(after) || exists e, done: nat :: StoppedAt(cfg, feeds, base, after, e, done)
  }

  lemma {:induction false} LoadKeeps(cfg: Settings, feeds: Entity -> Feed, base: Tables, n: nat)
    requires n <= 16 && LoadUpTo(cfg, feeds, base, n).Ok?
    ensures forall ref | HasRow(base, ref) :: HasRow(LoadUpTo(cfg, feeds, base, n).value, ref)
  {
    hide AcceptedRows, WriteAll, HasRow;
    if n > 0 {
      LoadKeeps(cfg, feeds, base, n - 1);
      var e := Nth(n - 1);
      WriteAllKeeps(LoadUpTo(cfg, feeds, base, n - 1).value, e, AcceptedRows(cfg, e, feeds(e)));
    }
  }

  /** Rows of a failed load stay, too. */
  lemma AttemptKeeps(cfg: Settings, feeds: Entity -> Feed, base: Tables, after: Tables)
    requires Attempt(cfg, feeds, base, after)
    ensures forall ref | HasRow(base, ref) :: HasRow(after, ref)
  {
    hide AcceptedRows, WriteAll, LoadUpTo, HasRow, WholeBatches;
    if LoadUpTo(cfg, feeds, base, 16) == Ok(after) {
      LoadKeeps(cfg, feeds, base, 16);
    } else {
      var e, done: nat :| StoppedAt(cfg, feeds, base, after, e, done);
      LoadKeeps(cfg, feeds, base, Rank(e));
      WriteAllKeeps(LoadUpTo(cfg, feeds, base, Rank(e)).value, e, AcceptedRows(cfg, e, feeds(e))[..done]);
    }
  }

  /** Loads one after the other: ts[i] is what load i finds and ts[i + 1] what it leaves. */
  ghost predicate IsHistory(cfg: Settings, feeds: seq<Entity -> Feed>, ts: seq<Tables>) {
    |ts| == |feeds| + 1 && forall i | 0 <= i < |feeds| :: Attempt(cfg, feeds[i], ts[i], ts[i + 1])
  }

  lemma {:induction false} RowsStay(cfg: Settings, feeds: seq<Entity -> Feed>, ts: seq<Tables>, i: nat, j: nat,
                                    ref: (Entity, Key))
    requires IsHistory(cfg, feeds, ts) && i <= j < |ts| && HasRow(ts[i], ref)
    ensures HasRow(ts[j], ref)
    decreases j - i
  {
    hide Attempt, HasRow;
    if i < j {
      RowsStay(cfg, feeds, ts, i, j - 1, ref);
      AttemptKeeps(cfg, feeds[j - 1], ts[j - 1], ts[j]);
    }
  }

  /** A receipt line or stock movement that is in the tables, from a load that was committed or from whole batches of one
      that failed, makes every later load fail that accepts it again: the first after it and every retry. */
  lemma NeverAgain(cfg: Settings, feeds: seq<Entity -> Feed>, ts: seq<Tables>, i: nat, j: nat, e: Entity, k: Key)
    requires IsHistory(cfg, feeds, ts) && i <= j < |feeds| && (e == ReceiptLine || e == StockMovement)
    requires HasRow(ts[i], (e, k)) && HasKeyed(AcceptedRows(cfg, e, feeds[j](e)), k)
    ensures LoadUpTo(cfg, feeds[j], ts[j], 16).Err?
  {
    hide AcceptedRows, LoadUpTo, Reached, AllFit, SkusFree, RefsAround, Attempt;
    RowsStay(cfg, feeds, ts, i, j, (e, k));
    DependencyOrder(e);
    LoadSucceeds(cfg, feeds[j], ts[j], 16);
    assert !Loadable(cfg, feeds[j], ts[j], e);
  }

  ghost predicate NoneShared(rows: seq<Row>, others: seq<Row>) {
    forall i, j | 0 <= i < |rows| && 0 <= j < |others| :: rows[i].key != others[j].key
  }

  /** Two successful loads in a row: the second meets its conditions on plain inserts exactly when its keys were new
      before the first load and none of them came with it. */
  lemma SecondLoadIsNew(cfg: Settings, first: Entity -> Feed, second: Entity -> Feed, base: Tables, after: Tables,
                        e: Entity)
    requires LoadUpTo(cfg, first, base, 16) == Ok(after) && (e == ReceiptLine || e == StockMovement)
    ensures var rows := AcceptedRows(cfg, e, second(e));
            NewKeys(TableOf(after, e), rows) <==>
            NewKeys(TableOf(base, e), rows) && NoneShared(AcceptedRows(cfg, e, first(e)), rows)
  {
    hide AcceptedRows, LoadUpTo, LoadableUpTo;
    LoadSucceeds(cfg, first, base, 16);
    DependencyOrder(e);
    var loaded, rows := AcceptedRows(cfg, e, first(e)), AcceptedRows(cfg, e, second(e));
    forall j | 0 <= j < |rows|
      ensures rows[j].key in TableOf(after, e).rows <==>
              rows[j].key in TableOf(base, e).rows || HasKeyed(loaded, rows[j].key)
    {
      assert HasRow(after, (e, rows[j].key)) <==>
             HasRow(base, (e, rows[j].key)) || LoadedRow(cfg, first, 16, (e, rows[j].key));
    }
    hide TableOf, Reached;
  }

  /** After a successful load, the next one succeeds exactly when everything else is in order and no plain-insert row of
      it was there before the first, came with the first, or comes twice. */
  lemma SecondLoadSucceeds(cfg: Settings, first: Entity -> Feed, second: Entity -> Feed, base: Tables, after: Tables)
    requires LoadUpTo(cfg, first, base, 16) == Ok(after)
    ensures LoadUpTo(cfg, second, after, 16).Ok? <==>
            forall e: Entity ::
              var t, rows := TableOf(after, e), AcceptedRows(cfg, e, second(e));
              && AllFit(t, rows) && SkusFree(e, t, rows) && RefsAround(cfg, second, after, e)
              && (e == ReceiptLine || e == StockMovement ==>
                    NewKeys(TableOf(base, e), rows) && NoneShared(AcceptedRows(cfg, e, first(e)), rows))
  {
    hide AcceptedRows, LoadUpTo, Reached, AllFit, SkusFree, RefsAround, NewKeys, NoneShared, TableOf;
    LoadSucceeds(cfg, second, after, 16);
    forall e: Entity
      ensures Rank(e) < 16
      ensures e == ReceiptLine || e == StockMovement ==>
                (NewKeys(TableOf(after, e), AcceptedRows(cfg, e, second(e))) <==>
                 && NewKeys(TableOf(base, e), AcceptedRows(cfg, e, second(e)))
                 && NoneShared(AcceptedRows(cfg, e, first(e)), AcceptedRows(cfg, e, second(e))))
    {
      DependencyOrder(e);
      if e == ReceiptLine || e == StockMovement {
        SecondLoadIsNew(cfg, first, second, base, after, e);
      }
    }
    hide Rank;
  }

  /** The condition on keys alone decides: when everything else about the entities up to a plain-insert one is in order,
      a key that is there or comes twice is the reason of the refusal. */
  lemma RefusedForKeys(cfg: Settings, feeds: Entity -> Feed, base: Tables, e: Entity)
    requires e == ReceiptLine || e == StockMovement
    requires LoadableUpTo(cfg, feeds, base, Rank(e)) && RefsAround(cfg, feeds, base, e)
    requires var t, rows := TableOf(base, e), AcceptedRows(cfg, e, feeds(e));
             AllFit(t, rows) && SkusFree(e, t, rows) && !NewKeys(t, rows)
    ensures LoadUpTo(cfg, feeds, base, 16) == Err(DuplicateKey)
  {
    hide AcceptedRows, WriteAll, AllFit, SkusFree, NewKeys, RefsMet, RefsAround, TableOf, LoadedRow, HasRow, LoadableUpTo;
    DependencyOrder(e);
    LoadSucceeds(cfg, feeds, base, Rank(e));
    var ts := LoadUpTo(cfg, feeds, base, Rank(e)).value;
    RefsAgree(cfg, feeds, base, ts, e);
    OnlyKeys(ts, e, AcceptedRows(cfg, e, feeds(e)));
    FailureStays(cfg, feeds, base, Rank(e) + 1, 16);
  }

  lemma {:induction false} OnlyKeys(ts: Tables, e: Entity, rows: seq<Row>)
    requires KindOf(e) == Insert && AllFit(TableOf(ts, e), rows) && SkusFree(e, TableOf(ts, e), rows)
    requires RefsMet(ts, e, rows) && !NewKeys(TableOf(ts, e), rows)
    ensures WriteAll(ts, e, rows) == Err(DuplicateKey)
  {
    NoRowsAreNew(TableOf(ts, e));
    hide WriteRow, AllFit, SkusFree, NewKeys, RefsMet, RefsMetAt, SkuFreeAt, Fits, TableOf, Lookup, RowAfter, HasKeyed;
    var init, last := rows[..|rows| - 1], rows[|rows| - 1];
    FitOneMore(TableOf(ts, e), rows);
    SkusOneMore(e, ts, rows);
    RefsOneMore(e, ts, rows);
    NewKeysOneMore(TableOf(ts, e), rows);
    WritableIff(ts, e, init);
    if NewKeys(TableOf(ts, e), init) {
      var u := WriteAll(ts, e, init).value;
      WriteAllAdds(ts, e, init);
      RowAfterIs(e, TableOf(ts, e), init, last.key);
      assert Lookup(TableOf(u, e), last.key) == RowAfter(e, TableOf(ts, e), init, last.key);
      KnownKeyIsDuplicate(u, ts, e, last);
    } else {
      OnlyKeys(ts, e, init);
    }
  }

  lemma NoRowsAreNew(t: Table)
    ensures NewKeys(t, [])
  {
  }

  lemma KnownKeyIsDuplicate(u: Tables, ts: Tables, e: Entity, row: Row)
    requires KindOf(e) == Insert && Fits(TableOf(ts, e), row) && TableOf(u, e).months == TableOf(ts, e).months
    requires Lookup(TableOf(u, e), row.key).Some?
    ensures WriteRow(u, e, row) == Err(DuplicateKey)
  {
  }
}
