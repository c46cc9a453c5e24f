/** The pages of the export API (handler/products.go, receipt_line.go, streaming.go and the select_*.sql behind them).
    Their queries list rows in the order of the primary key columns but filter on the key written as text,
    so a scan is right only where these two orders agree. */
module ExportPages {
  import opened Basics
  import opened Keyset
  import opened Text

  /** The rows of the current load in ORDER BY order; the key of a row is its text in the cursor. */
  type Table<+D> = seq<Row<string, D>>

  ghost predicate Distinct<D>(t: Table<D>) { forall i, j | 0 <= i < j < |t| :: t[i].key != t[j].key }

  /** A strict order of text that puts the empty text first, as every collation does. */
  ghost predicate Collation(less: Order<string>) {
    StrictOrder(less) && forall x | x != "" :: less("", x)
  }

  /** The cursor of a full page is the text of its last key; an empty text writes no header. */
  function NextPk<D>(page: Table<D>, limit: nat): string {
    if |page| == limit && page != [] then page[|page| - 1].key else ""
  }

  /** What a client collects that follows the cursors from afterPk on. */
  ghost function Scan<D(!new)>(less: Order<string>, t: Table<D>, afterPk: string, limit: nat): (all: Table<D>)
    requires Collation(less)
    ensures forall r | r in all :: r in t && less(afterPk, r.key)
    decreases |After(less, Some(afterPk), t)|
  {
    var page := Page(less, Some(afterPk), t, limit);
    var next := NextPk(page, limit);
    if next == "" then page
    else
      assert page[|page| - 1] in After(less, Some(afterPk), t);
      FewerRemain(less, Some(afterPk), next, t);
      page + Scan(less, t, next, limit)
  }

  ghost function PageCount<D(!new)>(less: Order<string>, t: Table<D>, afterPk: string, limit: nat): (n: nat)
    requires Collation(less)
    ensures n >= 1
    decreases |After(less, Some(afterPk), t)|
  {
    var page := Page(less, Some(afterPk), t, limit);
    var next := NextPk(page, limit);
    if next == "" then 1
    else
      assert page[|page| - 1] in After(less, Some(afterPk), t);
      FewerRemain(less, Some(afterPk), next, t);
      1 + PageCount(less, t, next, limit)
  }

  /** The text of the key before position b lets exactly the rows from b on through. */
  ghost predicate CutsAt<D>(less: Order<string>, t: Table<D>, b: nat)
    requires b <= |t|
  {
    forall i | 0 <= i < |t| :: less(CursorAt(t, b), t[i].key) <==> b <= i
  }

  function CursorAt<D>(t: Table<D>, b: nat): string
    requires b <= |t|
  {
    if b == 0 then "" else t[b - 1].key
  }

  /** The text order agrees with the table's order at the page boundaries b, b + limit, ... */
  ghost predicate AgreesFrom<D>(less: Order<string>, t: Table<D>, b: nat, limit: nat)
    requires b <= |t| && limit >= 1
    decreases |t| - b
  {
    CutsAt(less, t, b) && (b + limit <= |t| ==> AgreesFrom(less, t, b + limit, limit))
  }

  /** The first row that passes is one that no earlier passing row precedes. */
  lemma {:induction false} FirstAfter<D(!new)>(less: Order<string>, c: string, t: Table<D>, i: nat)
    requires i < |t| && less(c, t[i].key)
    ensures After(less, Some(c), t) != []
    ensures exists j: nat | j <= i :: After(less, Some(c), t)[0] == t[j]
  {
    if less(c, t[0].key) {
      assert After(less, Some(c), t)[0] == t[0];
    } else {
      FirstAfter(less, c, t[1..], i - 1);
      var j: nat :| j <= i - 1 && After(less, Some(c), t[1..])[0] == t[1..][j];
      assert t[1..][j] == t[j + 1];
    }
  }

  lemma ScanStartsRight<D(!new)>(less: Order<string>, t: Table<D>, c: string, limit: nat)
    requires Collation(less) && limit >= 1 && After(less, Some(c), t) != []
    ensures Scan(less, t, c, limit) != [] && Scan(less, t, c, limit)[0] == After(less, Some(c), t)[0]
  {}

  lemma NothingEarlierPasses<D(!new)>(less: Order<string>, t: Table<D>, b: nat, limit: nat, i: nat)
    requires Collation(less) && Distinct(t) && limit >= 1 && i < b <= |t|
    requires Scan(less, t, CursorAt(t, b), limit) == t[b..]
    ensures !less(CursorAt(t, b), t[i].key)
  {
    var c := CursorAt(t, b);
    if less(c, t[i].key) {
      FirstAfter(less, c, t, i);
      ScanStartsRight(less, t, c, limit);
      hide Scan, After, Collation;
      assert false;
    }
  }

  /** A scan that returns the right rows was filtered rightly. */
  lemma RightRowsRightCut<D(!new)>(less: Order<string>, t: Table<D>, b: nat, limit: nat)
    requires Collation(less) && Distinct(t) && limit >= 1 && b <= |t|
    requires Scan(less, t, CursorAt(t, b), limit) == t[b..]
    ensures CutsAt(less, t, b)
  {
    forall i | 0 <= i < |t|
      ensures less(CursorAt(t, b), t[i].key) <==> b <= i
    {
      if b <= i {
        assert t[b..][i - b] == t[i];
        assert t[i] in Scan(less, t, CursorAt(t, b), limit);
      } else {
        NothingEarlierPasses(less, t, b, limit, i);
      }
    }
  }

  lemma NothingBeforeEmpty(less: Order<string>, x: string)
    requires Collation(less)
    ensures !less(x, "")
  {
    if x != "" {
      assert less("", x);
    }
  }

  /** One page behind a boundary where the orders agree. */
  lemma CutPage<D(!new)>(less: Order<string>, t: Table<D>, b: nat, limit: nat)
    requires Collation(less) && limit >= 1 && b <= |t| && CutsAt(less, t, b)
    ensures Page(less, Some(CursorAt(t, b)), t, limit) == t[b..Min(b + limit, |t|)]
    ensures var next := NextPk(Page(less, Some(CursorAt(t, b)), t, limit), limit);
            if b + limit <= |t| then next == CursorAt(t, b + limit) != "" else next == ""
  {
    hide Page;
    PageIsSlice(less, CursorAt(t, b), t, b, limit);
    if b + limit <= |t| {
      var last := b + limit - 1;
      assert less(CursorAt(t, b), t[last].key);
      NothingBeforeEmpty(less, CursorAt(t, b));
    }
  }

  lemma CutScan<D(!new)>(less: Order<string>, t: Table<D>, b: nat, limit: nat)
    requires Collation(less) && limit >= 1 && b <= |t| && CutsAt(less, t, b)
    ensures Scan(less, t, CursorAt(t, b), limit)
         == if b + limit <= |t| then t[b..b + limit] + Scan(less, t, CursorAt(t, b + limit), limit) else t[b..]
  {
    CutPage(less, t, b, limit);
    hide Page, NextPk, Collation, CutsAt, CursorAt;
  }

  lemma CutCount<D(!new)>(less: Order<string>, t: Table<D>, b: nat, limit: nat)
    requires Collation(less) && limit >= 1 && b <= |t| && CutsAt(less, t, b)
    ensures PageCount(less, t, CursorAt(t, b), limit)
         == if b + limit <= |t| then 1 + PageCount(less, t, CursorAt(t, b + limit), limit) else 1
  {
    CutPage(less, t, b, limit);
    hide Page, NextPk, Collation, CutsAt, CursorAt;
  }

  /** The pages behind a boundary are right exactly when the orders agree at all the boundaries that follow. */
  lemma {:induction false} ScanFromBoundary<D(!new)>(less: Order<string>, t: Table<D>, b: nat, limit: nat)
    requires Collation(less) && Distinct(t) && limit >= 1 && b <= |t|
    ensures Scan(less, t, CursorAt(t, b), limit) == t[b..] <==> AgreesFrom(less, t, b, limit)
    decreases |t| - b
  {
    hide Scan, Collation, CutsAt, CursorAt, Distinct;
    if Scan(less, t, CursorAt(t, b), limit) == t[b..] {
      RightRowsRightCut(less, t, b, limit);
    }
    if CutsAt(less, t, b) {
      CutScan(less, t, b, limit);
      if b + limit <= |t| {
        ScanFromBoundary(less, t, b + limit, limit);
        assert t[b..] == t[b..b + limit] + t[b + limit..];
        assert t[b..][limit..] == t[b + limit..];
      }
    }
  }

  /** A client gets the whole table, in order, exactly when text order and table order agree at every page boundary. */
  lemma ScanIsExact<D(!new)>(less: Order<string>, t: Table<D>, limit: nat)
    requires Collation(less) && Distinct(t) && limit >= 1
    ensures Scan(less, t, "", limit) == t <==> AgreesFrom(less, t, 0, limit)
  {
    ScanFromBoundary(less, t, 0, limit);
  }

  /** How many pages a scan of n rows takes: the full ones and one more. */
  function Pages(n: nat, limit: nat): nat
    requires limit >= 1
  {
    if n < limit then 1 else 1 + Pages(n - limit, limit)
  }

  lemma {:induction false} PagesByDivision(n: nat, limit: nat)
    requires limit >= 1
    ensures Pages(n, limit) == n / limit + 1
  {
    if n < limit {
      QuotientIs(n, limit, 0);
    } else {
      PagesByDivision(n - limit, limit);
      var q := (n - limit) / limit;
      assert (q + 1) * limit == q * limit + limit;
      QuotientIs(n, limit, q + 1);
    }
  }

  /** An exact scan takes that many. */
  lemma {:induction false} PagesOfAnExactScan<D(!new)>(less: Order<string>, t: Table<D>, b: nat, limit: nat)
    requires Collation(less) && limit >= 1 && b <= |t| && AgreesFrom(less, t, b, limit)
    ensures PageCount(less, t, CursorAt(t, b), limit) == Pages(|t| - b, limit)
    decreases |t| - b
  {
    hide PageCount, Collation, CutsAt, CursorAt;
    CutCount(less, t, b, limit);
    if b + limit <= |t| {
      PagesOfAnExactScan(less, t, b + limit, limit);
      hide AgreesFrom;
      assert Pages(|t| - b, limit) == 1 + Pages(|t| - (b + limit), limit);
    }
  }

  /** A table in text order without an empty key is scanned rightly with any page size. */
  lemma {:induction false} SortedAgrees<D(!new)>(less: Order<string>, t: Table<D>, b: nat, limit: nat)
    requires Collation(less) && Sorted(less, t) && limit >= 1 && b <= |t|
    requires t != [] ==> t[0].key != ""
    ensures AgreesFrom(less, t, b, limit)
    decreases |t| - b
  {
    forall i | 0 <= i < |t|
      ensures less(CursorAt(t, b), t[i].key) <==> b <= i
    {
      if b == 0 && i > 0 {
        NothingBeforeEmpty(less, t[0].key);
        assert less(t[0].key, t[i].key);
      }
    }
    if b + limit <= |t| {
      SortedAgrees(less, t, b + limit, limit);
    }
  }

  /** Pages of one row come out in text order, whatever the order of the table. */
  lemma {:induction false} OneRowPagesAreSorted<D(!new)>(less: Order<string>, t: Table<D>, afterPk: string)
    requires Collation(less)
    ensures Sorted(less, Scan(less, t, afterPk, 1))
    decreases |After(less, Some(afterPk), t)|
  {
    var page := Page(less, Some(afterPk), t, 1);
    var next := NextPk(page, 1);
    if next != "" {
      assert page[0] in After(less, Some(afterPk), t);
      FewerRemain(less, Some(afterPk), next, t);
      OneRowPagesAreSorted(less, t, next);
      OneRowFirst(less, page[0], Scan(less, t, next, 1));
    }
  }

  lemma OneRowFirst<D(!new)>(less: Order<string>, r: Row<string, D>, rest: Table<D>)
    requires Sorted(less, rest) && forall x | x in rest :: less(r.key, x.key)
    ensures Sorted(less, [r] + rest)
  {
    forall i, j | 0 <= i < j < |[r] + rest|
      ensures less(([r] + rest)[i].key, ([r] + rest)[j].key)
    {
      assert rest[j - 1] in rest;
    }
  }

  ghost predicate ExactForEveryPageSize<D(!new)>(less: Order<string>, t: Table<D>)
    requires Collation(less)
  {
    forall limit: nat | limit >= 1 :: Scan(less, t, "", limit) == t
  }

  /** Every page size works exactly when the table is in text order (so no key comes twice) and has no empty key. */
  lemma EveryPageSize<D(!new)>(less: Order<string>, t: Table<D>)
    requires Collation(less)
    ensures ExactForEveryPageSize(less, t) <==> Sorted(less, t) && (t != [] ==> t[0].key != "")
  {
    if Sorted(less, t) && (t != [] ==> t[0].key != "") {
      forall limit: nat | limit >= 1
        ensures Scan(less, t, "", limit) == t
      {
        forall i, j | 0 <= i < j < |t|
          ensures t[i].key != t[j].key
        {
          assert less(t[i].key, t[j].key);
        }
        ScanIsExact(less, t, limit);
        SortedAgrees(less, t, 0, limit);
      }
    }
    if ExactForEveryPageSize(less, t) {
      assert Scan(less, t, "", 1) == t;
      OneRowPagesAreSorted(less, t, "");
      if t != [] {
        assert t[0] in Scan(less, t, "", 1);
      }
    }
  }

  function ByteOrder(): Order<string> { (a, b) => LexLess(a, b) }

  lemma ByteOrderIsACollation()
    ensures Collation(ByteOrder())
  {
    forall a: string
      ensures !LexLess(a, a)
    {
      LexIrreflexive(a);
    }
    forall a: string, b: string, c: string | LexLess(a, b) && LexLess(b, c)
      ensures LexLess(a, c)
    {
      LexTransitive(a, b, c);
    }
    forall a: string, b: string | a != b
      ensures LexLess(a, b) || LexLess(b, a)
    {
      LexTotal(a, b);
    }
  }

  // Receipt lines (and stock movements): ORDER BY event_date, id, but filtered on "<event_date>|<id>" as text.

  /** A row by its date, as the ten characters YYYY-MM-DD, and its number. */
  datatype DayRow<+D> = DayRow(day: string, id: nat, data: D)

  function PkText<D>(r: DayRow<D>): string { r.day + "|" + Digits(r.id) }

  ghost predicate DayOrdered<D>(rows: seq<DayRow<D>>) {
    && (forall i | 0 <= i < |rows| :: |rows[i].day| == 10)
    && (forall i, j | 0 <= i < j < |rows| ::
          LexLess(rows[i].day, rows[j].day) || (rows[i].day == rows[j].day && rows[i].id < rows[j].id))
  }

  function AsTable<D>(rows: seq<DayRow<D>>): (t: Table<DayRow<D>>)
    ensures |t| == |rows| && forall i | 0 <= i < |rows| :: t[i] == Row(PkText(rows[i]), rows[i])
  {
    seq(|rows|, i requires 0 <= i < |rows| => Row(PkText(rows[i]), rows[i]))
  }

  lemma PkTextOrder<D>(a: DayRow<D>, b: DayRow<D>)
    requires |a.day| == |b.day|
    ensures LexLess(PkText(a), PkText(b))
       <==> LexLess(a.day, b.day) || (a.day == b.day && LexLess(Digits(a.id), Digits(b.id)))
  {
    if a.day == b.day {
      LexSamePrefix(a.day + "|", Digits(a.id), Digits(b.id));
      LexIrreflexive(a.day);
    } else {
      assert PkText(a) == a.day + ("|" + Digits(a.id)) && PkText(b) == b.day + ("|" + Digits(b.id));
      LexByFront(a.day, b.day, "|" + Digits(a.id), "|" + Digits(b.id));
    }
  }

  /** The numbers of one day, as text, are in the order of the numbers. */
  ghost predicate NumeralsAgree<D>(rows: seq<DayRow<D>>) {
    forall i, j | 0 <= i < j < |rows| ::
      rows[i].day == rows[j].day ==> LexLess(Digits(rows[i].id), Digits(rows[j].id))
  }

  lemma RowsOfOneDay<D>(a: DayRow<D>, b: DayRow<D>)
    requires |a.day| == |b.day| == 10
    requires LexLess(a.day, b.day) || (a.day == b.day && a.id < b.id)
    ensures PkText(a) != PkText(b)
    ensures LexLess(PkText(a), PkText(b)) <==> (a.day == b.day ==> LexLess(Digits(a.id), Digits(b.id)))
  {
    PkTextOrder(a, b);
    LexIrreflexive(a.day);
    assert PkText(a)[..10] == a.day && PkText(b)[..10] == b.day;
    assert PkText(a)[11..] == Digits(a.id) && PkText(b)[11..] == Digits(b.id);
  }

  /** Receipt lines can be paged with every page size exactly when the numerals of each day agree. */
  lemma ReceiptLinesScan<D(!new)>(rows: seq<DayRow<D>>)
    requires DayOrdered(rows)
    ensures Collation(ByteOrder()) && (ExactForEveryPageSize(ByteOrder(), AsTable(rows)) <==> NumeralsAgree(rows))
  {
    var t := AsTable(rows);
    forall i, j | 0 <= i < j < |rows|
      ensures t[i].key != t[j].key
      ensures ByteOrder()(t[i].key, t[j].key)
         <==> (rows[i].day == rows[j].day ==> LexLess(Digits(rows[i].id), Digits(rows[j].id)))
    {
      RowsOfOneDay(rows[i], rows[j]);
    }
    ByteOrderIsACollation();
    EveryPageSize(ByteOrder(), t);
    hide ExactForEveryPageSize, Collation, LexLess, PkText;
  }

  /** Enough for that: the numbers of one day have equally many digits. */
  lemma EqualWidthsAgree<D>(rows: seq<DayRow<D>>)
    requires DayOrdered(rows)
    requires forall i, j | 0 <= i < j < |rows| ::
               rows[i].day == rows[j].day ==> |Digits(rows[i].id)| == |Digits(rows[j].id)|
    ensures NumeralsAgree(rows)
  {
    forall i, j | 0 <= i < j < |rows| && rows[i].day == rows[j].day
      ensures LexLess(Digits(rows[i].id), Digits(rows[j].id))
    {
      LexIrreflexive(rows[i].day);
      SameLengthOrder(Digits(rows[i].id), Digits(rows[j].id));
    }
  }

  lemma TwoRows<D(!new)>(less: Order<string>, a: Row<string, D>, b: Row<string, D>)
    requires Collation(less) && a.key != "" && b.key != "" && !less(a.key, b.key)
    ensures Scan(less, [a, b], "", 1) == [a]
  {
    AfterIsSuffix(less, "", [a, b], 0);
    AfterIsSuffix(less, a.key, [a, b], 2);
    assert [a, b][..1] == [a];
  }

  /** A day whose numbers pass from 9 to 10 loses the second line when a page ends between them. */
  lemma LostReceiptLine()
    ensures var t := AsTable([DayRow("2024-05-01", 9, ()), DayRow("2024-05-01", 10, ())]);
            Collation(ByteOrder()) && Scan(ByteOrder(), t, "", 1) == t[..1]
  {
    var rows := [DayRow("2024-05-01", 9, ()), DayRow("2024-05-01", 10, ())];
    var t := AsTable(rows);
    ByteOrderIsACollation();
    LexIrreflexive("2024-05-01");
    PkTextOrder(rows[0], rows[1]);
    assert Digits(9) == "9" && Digits(10) == "10";
    TwoRows(ByteOrder(), t[0], t[1]);
    assert t == [t[0], t[1]];
  }

  // Keys of several columns: ORDER BY a, b, ..., but filtered on a || '|' || b || ... as text.

  /** A row by its key columns, each as text. */
  datatype FieldRow<+D> = FieldRow(fields: seq<string>, data: D)

  function Joined(fields: seq<string>): string
    requires fields != []
  {
    if |fields| == 1 then fields[0] else fields[0] + "|" + Joined(fields[1..])
  }

  /** The order of the columns, one after the other. */
  ghost predicate FieldsLess(f: seq<string>, g: seq<string>)
    requires |f| == |g|
  {
    f != [] && (LexLess(f[0], g[0]) || (f[0] == g[0] && FieldsLess(f[1..], g[1..])))
  }

  ghost predicate NoBars(fields: seq<string>) { forall k | 0 <= k < |fields| - 1 :: '|' !in fields[k] }

  /** Behind equal columns, a column of f other than the last continues in g with a character below the bar: then g
      comes after f in the table and before f as text. */
  ghost predicate Clash(f: seq<string>, g: seq<string>)
    requires |f| == |g|
  {
    exists k :: 0 <= k < |f| - 1 && f[..k] == g[..k] && ContinuesLow(f[k], g[k])
  }

  ghost predicate ContinuesLow(a: string, b: string) { a < b && b[|a|] < '|' }

  /** The query's order: by the columns; rows with equal columns may come in any order. */
  ghost predicate FieldOrdered<D>(rows: seq<FieldRow<D>>, n: nat) {
    && (forall i | 0 <= i < |rows| :: |rows[i].fields| == n && NoBars(rows[i].fields))
    && (forall i, j | 0 <= i < j < |rows| ::
          rows[i].fields == rows[j].fields || FieldsLess(rows[i].fields, rows[j].fields))
  }

  function JoinedTable<D>(rows: seq<FieldRow<D>>, n: nat): (t: Table<FieldRow<D>>)
    requires n >= 1 && forall i | 0 <= i < |rows| :: |rows[i].fields| == n
    ensures |t| == |rows| && forall i | 0 <= i < |rows| :: t[i] == Row(Joined(rows[i].fields), rows[i])
  {
    seq(|rows|, i requires 0 <= i < |rows| => Row(Joined(rows[i].fields), rows[i]))
  }

  /** Two different columns with a bar behind them are ordered like the columns unless the first continues low. */
  lemma {:induction false} HeadOrder(a: string, x: string, b: string, y: string)
    requires LexLess(a, b) && '|' !in b
    ensures LexLess(a + "|" + x, b + "|" + y) <==> !ContinuesLow(a, b)
  {
    if a != "" && a[0] == b[0] {
      HeadOrder(a[1..], x, b[1..], y);
      assert (a + "|" + x)[1..] == a[1..] + "|" + x && (b + "|" + y)[1..] == b[1..] + "|" + y;
      assert a < b <==> a[1..] < b[1..];
    } else if a == "" {
      assert b[0] in b;
    }
  }

  lemma ClashByFirst(f: seq<string>, g: seq<string>)
    requires |f| == |g| >= 2
    ensures Clash(f, g) <==> ContinuesLow(f[0], g[0]) || (f[0] == g[0] && Clash(f[1..], g[1..]))
  {
    if ContinuesLow(f[0], g[0]) {
      assert f[..0] == g[..0];
    }
    if f[0] == g[0] && Clash(f[1..], g[1..]) {
      var k :| 0 <= k < |f| - 2 && f[1..][..k] == g[1..][..k] && ContinuesLow(f[1..][k], g[1..][k]);
      assert f[..k + 1] == [f[0]] + f[1..][..k] && g[..k + 1] == [g[0]] + g[1..][..k];
      assert ContinuesLow(f[k + 1], g[k + 1]);
    }
    if Clash(f, g) {
      var k :| 0 <= k < |f| - 1 && f[..k] == g[..k] && ContinuesLow(f[k], g[k]);
      if k > 0 {
        assert f[0] == f[..k][0] && g[0] == g[..k][0];
        assert f[1..][..k - 1] == f[..k][1..] && g[1..][..k - 1] == g[..k][1..];
        assert ContinuesLow(f[1..][k - 1], g[1..][k - 1]);
      }
    }
  }

  /** The joined texts of two rows are in the order of the rows exactly when they do not clash. */
  lemma {:induction false} JoinedOrder(f: seq<string>, g: seq<string>)
    requires |f| == |g| && FieldsLess(f, g) && NoBars(g)
    ensures LexLess(Joined(f), Joined(g)) <==> !Clash(f, g)
  {
    if |f| > 1 {
      ClashByFirst(f, g);
      assert '|' !in g[0];
      if f[0] == g[0] {
        LexIrreflexive(f[0]);
        forall k | 0 <= k < |g[1..]| - 1
          ensures '|' !in g[1..][k]
        {
          assert g[1..][k] == g[k + 1];
        }
        JoinedOrder(f[1..], g[1..]);
        LexSamePrefix(f[0] + "|", Joined(f[1..]), Joined(g[1..]));
      } else {
        HeadOrder(f[0], Joined(f[1..]), g[0], Joined(g[1..]));
      }
    }
  }

  /** No row comes twice, and no row clashes with a later one. */
  ghost predicate ClashFree<D>(rows: seq<FieldRow<D>>, n: nat)
    requires forall i | 0 <= i < |rows| :: |rows[i].fields| == n
  {
    forall i, j | 0 <= i < j < |rows| ::
      rows[i].fields != rows[j].fields && !Clash(rows[i].fields, rows[j].fields)
  }

  lemma RowsInOrder(f: seq<string>, g: seq<string>)
    requires |f| == |g| >= 1 && NoBars(g) && (f == g || FieldsLess(f, g))
    ensures LexLess(Joined(f), Joined(g)) <==> f != g && !Clash(f, g)
  {
    if f == g {
      LexIrreflexive(Joined(f));
    } else {
      JoinedOrder(f, g);
    }
  }

  /** Rows keyed by several columns can be paged with every page size exactly when none comes twice and no leading column
      of a row, behind equal ones, continues in a later row with a character below the bar (as a letter or digit is). */
  lemma JoinedKeysScan<D(!new)>(rows: seq<FieldRow<D>>, n: nat)
    requires n >= 2 && FieldOrdered(rows, n)
    ensures Collation(ByteOrder())
    ensures ExactForEveryPageSize(ByteOrder(), JoinedTable(rows, n)) <==> ClashFree(rows, n)
  {
    var t := JoinedTable(rows, n);
    forall i, j | 0 <= i < j < |rows|
      ensures ByteOrder()(t[i].key, t[j].key)
         <==> rows[i].fields != rows[j].fields && !Clash(rows[i].fields, rows[j].fields)
    {
      RowsInOrder(rows[i].fields, rows[j].fields);
    }
    ByteOrderIsACollation();
    EveryPageSize(ByteOrder(), t);
    if rows != [] {
      assert |t[0].key| > 0;
    }
    hide ExactForEveryPageSize, Collation, LexLess, Clash, Joined;
  }

  /** Two rows that clash or have the same key are enough: with a page between them the second is lost. */
  lemma ClashLosesRow<D(!new)>(f: seq<string>, g: seq<string>, x: D, y: D)
    requires |f| == |g| >= 2 && NoBars(g) && (f == g || Clash(f, g))
    ensures f == g || FieldsLess(f, g)
    ensures var t := JoinedTable([FieldRow(f, x), FieldRow(g, y)], |f|);
            Collation(ByteOrder()) && Scan(ByteOrder(), t, "", 1) == t[..1]
  {
    if f != g { ClashIsOrdered(f, g); }
    RowsInOrder(f, g);
    ByteOrderIsACollation();
    var t := JoinedTable([FieldRow(f, x), FieldRow(g, y)], |f|);
    TwoRows(ByteOrder(), t[0], t[1]);
    assert t == [t[0], t[1]];
  }

  lemma {:induction false} ClashIsOrdered(f: seq<string>, g: seq<string>)
    requires |f| == |g| && Clash(f, g)
    ensures FieldsLess(f, g)
  {
    ClashByFirst(f, g);
    if ContinuesLow(f[0], g[0]) {
      PrefixIsLess(f[0], g[0]);
    } else {
      ClashIsOrdered(f[1..], g[1..]);
    }
  }

  lemma {:induction false} PrefixIsLess(a: string, b: string)
    requires a < b
    ensures LexLess(a, b)
  {
    if a != "" {
      PrefixIsLess(a[1..], b[1..]);
    }
  }

  /** Barcodes of the products P1 and P10 with pages of one row: that of P10 is lost. */
  lemma LostBarcode()
    ensures var t := JoinedTable([FieldRow(["P1", "x"], ()), FieldRow(["P10", "y"], ())], 2);
            Collation(ByteOrder()) && Scan(ByteOrder(), t, "", 1) == t[..1]
  {
    var f, g := ["P1", "x"], ["P10", "y"];
    assert f[..0] == g[..0] && ContinuesLow(f[0], g[0]);
    ClashLosesRow(f, g, (), ());
  }
}
