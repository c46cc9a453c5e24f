/** When the database takes all rows of a table, one INSERT after the other: exact conditions that can be read off the
    tables and the rows before anything is written. */
module WriteConditions {
  import opened Basics
  import opened LoadReport
  import opened BatchLoad

  predicate HasRow(ts: Tables, ref: (Entity, Key)) { ref.1 in TableOf(ts, ref.0).rows }

  ghost predicate HasKeyed(rows: seq<Row>, key: Key) { exists i :: 0 <= i < |rows| && rows[i].key == key }

  function Lookup(t: Table, k: Key): Option<Row> { if k in t.rows then Some(t.rows[k]) else None }

  /** The row under key k once the rows are written: the last of them with that key, or else the one there was. */
  function RowAfter(e: Entity, t: Table, rows: seq<Row>, k: Key): Option<Row> {
    if rows == [] || KindOf(e) == Append then Lookup(t, k)
    else if rows[|rows| - 1].key == k then Some(rows[|rows| - 1])
    else RowAfter(e, t, rows[..|rows| - 1], k)
  }

  // The conditions.

  /** The values fit, and so do the dates: their months have a partition. */
  ghost predicate AllFit(t: Table, rows: seq<Row>) { forall i | 0 <= i < |rows| :: Fits(t, rows[i]) }

  predicate Fits(t: Table, row: Row) { row.fits && (row.month.Some? ==> row.month.value in t.months) }

  /** No key is in the table yet, and none comes twice. */
  ghost predicate NewKeys(t: Table, rows: seq<Row>) {
    && (forall i | 0 <= i < |rows| :: rows[i].key !in t.rows)
    && forall i, j | 0 <= i < j < |rows| :: rows[i].key != rows[j].key
  }

  /** At the moment of writing row i no other id holds its sku. */
  ghost predicate SkuFreeAt(e: Entity, t: Table, rows: seq<Row>, i: nat)
    requires i < |rows|
  {
    rows[i].sku.Some? ==> forall k | k != rows[i].key :: !Sells(RowAfter(e, t, rows[..i], k), rows[i].sku)
  }

  predicate Sells(row: Option<Row>, sku: Option<string>) { row.Some? && row.value.sku == sku }

  ghost predicate SkusFree(e: Entity, t: Table, rows: seq<Row>) {
    forall i | 0 <= i < |rows| :: SkuFreeAt(e, t, rows, i)
  }

  /** What row i refers to is in the tables, or comes no later than row i itself in the same table. */
  ghost predicate RefMet(ts: Tables, e: Entity, rows: seq<Row>, i: nat, ref: (Entity, Key))
    requires i < |rows|
  {
    HasRow(ts, ref) || (KindOf(e) != Append && ref.0 == e && HasKeyed(rows[..i + 1], ref.1))
  }

  ghost predicate RefsMetAt(ts: Tables, e: Entity, rows: seq<Row>, i: nat)
    requires i < |rows|
  {
    forall ref | ref in rows[i].refs :: RefMet(ts, e, rows, i, ref)
  }

  ghost predicate RefsMet(ts: Tables, e: Entity, rows: seq<Row>) {
    forall i | 0 <= i < |rows| :: RefsMetAt(ts, e, rows, i)
  }

  ghost predicate Writable(ts: Tables, e: Entity, rows: seq<Row>) {
    var t := TableOf(ts, e);
    && AllFit(t, rows) && (e == ReceiptLine || e == StockMovement ==> NewKeys(t, rows))
    && SkusFree(e, t, rows) && RefsMet(ts, e, rows)
  }

  // What is in the tables after some rows.

  lemma WriteRowAdds(ts: Tables, e: Entity, row: Row, k: Key)
    requires WriteRow(ts, e, row).Ok?
    ensures var u := WriteRow(ts, e, row).value;
            && (forall x | x != e :: TableOf(u, x) == TableOf(ts, x)) && TableOf(u, e).months == TableOf(ts, e).months
            && Lookup(TableOf(u, e), k)
               == if KindOf(e) != Append && row.key == k then Some(row) else Lookup(TableOf(ts, e), k)
  {
    hide SkuTaken, Dangling, KindOf;
  }

  /** Rows go to their own table, under their own keys. */
  lemma {:induction false} WriteAllAdds(ts: Tables, e: Entity, rows: seq<Row>)
    requires WriteAll(ts, e, rows).Ok?
    ensures var u := WriteAll(ts, e, rows).value;
            && (forall x | x != e :: TableOf(u, x) == TableOf(ts, x))
            && TableOf(u, e).months == TableOf(ts, e).months
            && forall k :: Lookup(TableOf(u, e), k) == RowAfter(e, TableOf(ts, e), rows, k)
  {
    hide WriteRow, KindOf, TableOf, Lookup;
    if rows != [] {
      var init, last := rows[..|rows| - 1], rows[|rows| - 1];
      WriteAllAdds(ts, e, init);
      var v := WriteAll(ts, e, init).value;
      WriteRowAdds(v, e, last, last.key);
      forall k
        ensures Lookup(TableOf(WriteAll(ts, e, rows).value, e), k) == RowAfter(e, TableOf(ts, e), rows, k)
      {
        WriteRowAdds(v, e, last, k);
        AppendedLeave(e, TableOf(ts, e), init, k);
      }
    }
  }

  lemma AppendedLeave(e: Entity, t: Table, rows: seq<Row>, k: Key)
    ensures KindOf(e) == Append ==> RowAfter(e, t, rows, k) == Lookup(t, k)
  {
  }

  lemma {:induction false} RowAfterIs(e: Entity, t: Table, rows: seq<Row>, k: Key)
    ensures RowAfter(e, t, rows, k).Some? <==> k in t.rows || (KindOf(e) != Append && HasKeyed(rows, k))
  {
    if rows != [] {
      var init, last := rows[..|rows| - 1], rows[|rows| - 1];
      RowAfterIs(e, t, init, k);
      HasKeyedOneMore(init, last, k);
      assert rows == init + [last];
    }
  }

  lemma HasKeyedOneMore(rows: seq<Row>, row: Row, k: Key)
    ensures HasKeyed(rows + [row], k) <==> HasKeyed(rows, k) || row.key == k
  {
    if HasKeyed(rows, k) {
      var i :| 0 <= i < |rows| && rows[i].key == k;
      assert (rows + [row])[i].key == k;
    }
    if row.key == k {
      assert (rows + [row])[|rows|].key == k;
    }
  }

  // One row more.

  /** The four conditions on the last row alone. */
  ghost predicate LastFits(ts: Tables, e: Entity, rows: seq<Row>)
    requires rows != []
  {
    var t, n := TableOf(ts, e), |rows| - 1;
    && Fits(t, rows[n])
    && (e == ReceiptLine || e == StockMovement ==> rows[n].key !in t.rows && !HasKeyed(rows[..n], rows[n].key))
    && SkuFreeAt(e, t, rows, n) && RefsMetAt(ts, e, rows, n)
  }

  lemma NewKeysOneMore(t: Table, rows: seq<Row>)
    requires rows != []
    ensures var init, last := rows[..|rows| - 1], rows[|rows| - 1];
            NewKeys(t, rows) <==> NewKeys(t, init) && last.key !in t.rows && !HasKeyed(init, last.key)
  {
    var init := rows[..|rows| - 1];
    forall i | 0 <= i < |init|
      ensures init[i] == rows[i]
    {}
  }

  lemma EarlierRows(ts: Tables, e: Entity, rows: seq<Row>, i: nat)
    requires i < |rows| - 1
    ensures var init := rows[..|rows| - 1];
            && SkuFreeAt(e, TableOf(ts, e), rows, i) == SkuFreeAt(e, TableOf(ts, e), init, i)
            && RefsMetAt(ts, e, rows, i) == RefsMetAt(ts, e, init, i)
  {
    var init := rows[..|rows| - 1];
    assert rows[..i] == init[..i] && rows[..i + 1] == init[..i + 1];
  }

  lemma SkusOneMore(e: Entity, ts: Tables, rows: seq<Row>)
    requires rows != []
    ensures SkusFree(e, TableOf(ts, e), rows) <==>
            SkusFree(e, TableOf(ts, e), rows[..|rows| - 1]) && SkuFreeAt(e, TableOf(ts, e), rows, |rows| - 1)
  {
    hide SkuFreeAt, TableOf;
    var t, init, n := TableOf(ts, e), rows[..|rows| - 1], |rows| - 1;
    forall i | 0 <= i < n
      ensures SkuFreeAt(e, t, rows, i) == SkuFreeAt(e, t, init, i)
    {
      EarlierRows(ts, e, rows, i);
    }
    assert SkusFree(e, t, rows) ==> forall i | 0 <= i < n :: SkuFreeAt(e, t, rows, i);
  }

  lemma RefsOneMore(e: Entity, ts: Tables, rows: seq<Row>)
    requires rows != []
    ensures RefsMet(ts, e, rows) <==> RefsMet(ts, e, rows[..|rows| - 1]) && RefsMetAt(ts, e, rows, |rows| - 1)
  {
    hide RefsMetAt;
    var init, n := rows[..|rows| - 1], |rows| - 1;
    forall i | 0 <= i < n
      ensures RefsMetAt(ts, e, rows, i) == RefsMetAt(ts, e, init, i)
    {
      EarlierRows(ts, e, rows, i);
    }
    assert RefsMet(ts, e, rows) ==> forall i | 0 <= i < n :: RefsMetAt(ts, e, rows, i);
  }

  lemma FitOneMore(t: Table, rows: seq<Row>)
    requires rows != []
    ensures AllFit(t, rows) <==> AllFit(t, rows[..|rows| - 1]) && Fits(t, rows[|rows| - 1])
  {
    hide Fits;
    forall i | 0 <= i < |rows| - 1
      ensures rows[..|rows| - 1][i] == rows[i]
    {}
  }

  lemma WritableOneMore(ts: Tables, e: Entity, rows: seq<Row>)
    requires rows != []
    ensures Writable(ts, e, rows) <==> Writable(ts, e, rows[..|rows| - 1]) && LastFits(ts, e, rows)
  {
    hide NewKeys, HasKeyed, SkuFreeAt, RefsMetAt, Fits, KindOf, TableOf, AllFit, SkusFree, RefsMet;
    NewKeysOneMore(TableOf(ts, e), rows);
    SkusOneMore(e, ts, rows);
    RefsOneMore(e, ts, rows);
    FitOneMore(TableOf(ts, e), rows);
  }

  lemma SkuOfLast(u: Tables, ts: Tables, e: Entity, rows: seq<Row>)
    requires rows != []
    requires forall k :: Lookup(TableOf(u, e), k) == RowAfter(e, TableOf(ts, e), rows[..|rows| - 1], k)
    ensures SkuTaken(TableOf(u, e), rows[|rows| - 1]) <==> !SkuFreeAt(e, TableOf(ts, e), rows, |rows| - 1)
  {
    hide RowAfter, TableOf;
    var t, init, last := TableOf(u, e), rows[..|rows| - 1], rows[|rows| - 1];
    if SkuTaken(t, last) {
      var k :| k in t.rows && k != last.key && t.rows[k].sku == last.sku;
      assert Lookup(t, k) == RowAfter(e, TableOf(ts, e), init, k);
      assert Sells(RowAfter(e, TableOf(ts, e), init, k), last.sku);
    } else if last.sku.Some? {
      forall k | k != last.key
        ensures !Sells(RowAfter(e, TableOf(ts, e), init, k), last.sku)
      {
        assert Lookup(t, k) == RowAfter(e, TableOf(ts, e), init, k);
      }
    }
  }

  lemma RefOfLast(u: Tables, ts: Tables, e: Entity, rows: seq<Row>, ref: (Entity, Key))
    requires rows != []
    requires forall x | x != e :: TableOf(u, x) == TableOf(ts, x)
    requires Lookup(TableOf(u, e), ref.1) == RowAfter(e, TableOf(ts, e), rows[..|rows| - 1], ref.1)
    ensures Resolves(u, e, rows[|rows| - 1], ref) == RefMet(ts, e, rows, |rows| - 1, ref)
  {
    hide RowAfter, TableOf, HasKeyed, KindOf;
    var init, last := rows[..|rows| - 1], rows[|rows| - 1];
    assert rows[..|rows| - 1 + 1] == init + [last];
    RowAfterIs(e, TableOf(ts, e), init, ref.1);
    HasKeyedOneMore(init, last, ref.1);
    assert ref == (ref.0, ref.1);
  }

  lemma RefsOfLast(u: Tables, ts: Tables, e: Entity, rows: seq<Row>)
    requires rows != []
    requires forall x | x != e :: TableOf(u, x) == TableOf(ts, x)
    requires forall k :: Lookup(TableOf(u, e), k) == RowAfter(e, TableOf(ts, e), rows[..|rows| - 1], k)
    ensures Dangling(u, e, rows[|rows| - 1]) <==> !RefsMetAt(ts, e, rows, |rows| - 1)
  {
    hide RowAfter, TableOf, Resolves, RefMet, Lookup;
    var last := rows[|rows| - 1];
    forall ref | ref in last.refs
      ensures Resolves(u, e, last, ref) == RefMet(ts, e, rows, |rows| - 1, ref)
    {
      assert Lookup(TableOf(u, e), ref.1) == RowAfter(e, TableOf(ts, e), rows[..|rows| - 1], ref.1);
      RefOfLast(u, ts, e, rows, ref);
    }
  }

  lemma WhenWritten(u: Tables, e: Entity, row: Row)
    ensures WriteRow(u, e, row).Ok? <==>
            && Fits(TableOf(u, e), row) && !SkuTaken(TableOf(u, e), row) && !Dangling(u, e, row)
            && (e == ReceiptLine || e == StockMovement ==> row.key !in TableOf(u, e).rows)
  {
    hide SkuTaken, Dangling, TableOf;
  }

  lemma KeyOfLast(u: Tables, ts: Tables, e: Entity, init: seq<Row>, k: Key)
    requires Lookup(TableOf(u, e), k) == RowAfter(e, TableOf(ts, e), init, k)
    ensures e == ReceiptLine || e == StockMovement ==>
              (k in TableOf(u, e).rows <==> k in TableOf(ts, e).rows || HasKeyed(init, k))
  {
    RowAfterIs(e, TableOf(ts, e), init, k);
    hide RowAfter, HasKeyed, TableOf;
  }

  lemma LastIsWritten(ts: Tables, u: Tables, e: Entity, rows: seq<Row>)
    requires rows != [] && WriteAll(ts, e, rows[..|rows| - 1]) == Ok(u)
    ensures WriteRow(u, e, rows[|rows| - 1]).Ok? <==> LastFits(ts, e, rows)
  {
    hide WriteAll, WriteRow, RowAfter, SkuTaken, Dangling, SkuFreeAt, RefsMetAt, HasKeyed, TableOf, KindOf, Lookup;
    var init, last := rows[..|rows| - 1], rows[|rows| - 1];
    WriteAllAdds(ts, e, init);
    KeyOfLast(u, ts, e, init, last.key);
    SkuOfLast(u, ts, e, rows);
    RefsOfLast(u, ts, e, rows);
    WhenWritten(u, e, last);
  }

  /** All rows are written exactly when their values fit, plain inserts bring new keys, no sku is held by another id
      when its turn comes, and no reference dangles then. */
  lemma {:induction false} WritableIff(ts: Tables, e: Entity, rows: seq<Row>)
    ensures WriteAll(ts, e, rows).Ok? <==> Writable(ts, e, rows)
  {
    if rows != [] {
      hide WriteRow, Writable, LastFits;
      WritableIff(ts, e, rows[..|rows| - 1]);
      WritableOneMore(ts, e, rows);
      if WriteAll(ts, e, rows[..|rows| - 1]).Ok? {
        LastIsWritten(ts, WriteAll(ts, e, rows[..|rows| - 1]).value, e, rows);
      }
    }
  }

  // Skus.

  /** Enough for skus: all those of the rows differ, and none is held by another id in the table. */
  lemma DistinctSkusAreFree(e: Entity, t: Table, rows: seq<Row>)
    requires forall i, j | 0 <= i < j < |rows| && rows[i].key != rows[j].key && rows[j].sku.Some? ::
               rows[i].sku != rows[j].sku
    requires forall i, k | 0 <= i < |rows| && rows[i].sku.Some? && k in t.rows && k != rows[i].key ::
               t.rows[k].sku != rows[i].sku
    ensures SkusFree(e, t, rows)
  {
    forall i, k | 0 <= i < |rows| && rows[i].sku.Some? && k != rows[i].key
      ensures !Sells(RowAfter(e, t, rows[..i], k), rows[i].sku)
    {
      if RowAfter(e, t, rows[..i], k).Some? {
        LastOrOld(e, t, rows[..i], k);
      }
    }
  }

  lemma {:induction false} LastOrOld(e: Entity, t: Table, rows: seq<Row>, k: Key)
    requires RowAfter(e, t, rows, k).Some?
    ensures (k in t.rows && RowAfter(e, t, rows, k).value == t.rows[k])
            || exists j :: 0 <= j < |rows| && rows[j].key == k && RowAfter(e, t, rows, k).value == rows[j]
  {
    if rows != [] && KindOf(e) != Append && rows[|rows| - 1].key != k {
      LastOrOld(e, t, rows[..|rows| - 1], k);
    }
  }

  /** Two products with one sku: the second is refused, whatever is in the tables. */
  lemma TwoProductsOneSku(ts: Tables, a: Row, b: Row)
    requires a.key != b.key && a.sku == b.sku && b.sku.Some?
    requires WriteAll(ts, Products, [a]).Ok? && Fits(TableOf(ts, Products), b)
    ensures WriteAll(ts, Products, [a, b]) == Err(DuplicateSku)
  {
    assert [a, b][..1] == [a];
    var u := WriteAll(ts, Products, [a]).value;
    WriteAllAdds(ts, Products, [a]);
    assert Lookup(TableOf(u, Products), a.key) == RowAfter(Products, TableOf(ts, Products), [a], a.key) == Some(a);
    hide Dangling;
  }

  /** Two products that exchange their skus between two loads are refused, though both skus are unique before and
      after. */
  lemma SwappedSkus(ts: Tables, a: Row, b: Row)
    requires a.key != b.key && a.sku.Some? && b.sku.Some? && a.sku != b.sku
    requires HasRow(ts, (Products, a.key)) && TableOf(ts, Products).rows[a.key].sku == b.sku
    requires HasRow(ts, (Products, b.key)) && TableOf(ts, Products).rows[b.key].sku == a.sku
    ensures WriteAll(ts, Products, [a, b]).Err? && WriteAll(ts, Products, [b, a]).Err?
  {
    assert [a, b][..1] == [a] && [b, a][..1] == [b];
    assert [a][..0] == [] && [b][..0] == [];
    assert SkuTaken(TableOf(ts, Products), a) && SkuTaken(TableOf(ts, Products), b);
    assert WriteAll(ts, Products, [a]).Err? && WriteAll(ts, Products, [b]).Err? by {
      hide SkuTaken, Dangling;
    }
    hide WriteRow;
  }

  // A key that comes again, table by table.

  /** Another row with the key of one that has been written, and with nothing else against it. Receipt lines and stock
      movements refuse it; the two logs keep both rows; every other table has the second row in place of the first. */
  lemma RepeatedKey(ts: Tables, e: Entity, a: Row, b: Row)
    requires WriteAll(ts, e, [a]).Ok? && b.key == a.key && Fits(TableOf(ts, e), b)
    requires b.sku == a.sku && b.refs == a.refs
    ensures match e
            case ReceiptLine => WriteAll(ts, e, [a, b]) == Err(DuplicateKey)
            case StockMovement => WriteAll(ts, e, [a, b]) == Err(DuplicateKey)
            case LifecycleEvents => BothKept(ts, WriteAll(ts, e, [a, b]), e, a, b)
            case MasterChangeLog => BothKept(ts, WriteAll(ts, e, [a, b]), e, a, b)
            case _ => Replaced(ts, WriteAll(ts, e, [a, b]), e, b)
  {
    assert [a, b][..1] == [a] && [a][..0] == [];
    hide SkuTaken, Dangling;
    var u := WriteAll(ts, e, [a]).value;
    SameSkuStillFree(ts, u, e, a, b);
    SameRefsStillThere(ts, u, e, a, b);
    assert WriteAll(ts, e, [a, b]) == WriteRow(u, e, b);
  }

  ghost predicate BothKept(ts: Tables, r: Result<Tables, Refusal>, e: Entity, a: Row, b: Row) {
    && r.Ok? && TableOf(r.value, e).appended == TableOf(ts, e).appended + [a, b]
    && TableOf(r.value, e).rows == TableOf(ts, e).rows
  }

  ghost predicate Replaced(ts: Tables, r: Result<Tables, Refusal>, e: Entity, b: Row) {
    && r.Ok? && TableOf(r.value, e).rows == TableOf(ts, e).rows[b.key := b]
    && TableOf(r.value, e).appended == TableOf(ts, e).appended
  }

  lemma SameSkuStillFree(ts: Tables, u: Tables, e: Entity, a: Row, b: Row)
    requires WriteRow(ts, e, a) == Ok(u) && b.key == a.key && b.sku == a.sku
    ensures !SkuTaken(TableOf(u, e), b)
  {
    assert !SkuTaken(TableOf(ts, e), a);
    hide Dangling, KindOf;
  }

  lemma SameRefsStillThere(ts: Tables, u: Tables, e: Entity, a: Row, b: Row)
    requires WriteRow(ts, e, a) == Ok(u) && b.key == a.key && b.refs == a.refs
    ensures !Dangling(u, e, b)
  {
    forall ref | ref in b.refs
      ensures Resolves(u, e, b, ref)
    {
      assert Resolves(ts, e, a, ref);
    }
    hide SkuTaken;
  }
}
