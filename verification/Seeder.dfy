/** The day-by-day seeder of the mock ERP (mock-erp/app/seeder.py): its clamp to the past, its state across calls and
    the facts it has written. Random draws are an oracle: `draw(d, s, p)` transactions for product p in store s on
    the d-th day of a call. */
module Seeder {
  import opened Basics
  import opened Calendar
  import opened Text

  /** A receipt: its day, its store and its number within the call that wrote it. */
  datatype Sale = Sale(day: Date, store: string, number: nat)

  datatype Fault = BadCount | NotSeeded | NoDaysLeft | NoStores

  type Draw = (nat, nat, nat) -> nat

  // Receipt numbers.

  /** strftime("%Y%m%d") */
  function DayText(d: Date): (s: string)
    requires IsDate(d) && d.year >= 0
    ensures '-' !in s
  {
    Pad(d.year, 4) + Pad(d.month, 2) + Pad(d.day, 2)
  }

  function ReceiptId(s: Sale): string
    requires IsDate(s.day) && s.day.year >= 0
  {
    "R-" + DayText(s.day) + "-" + s.store + "-" + Pad(s.number, 6)
  }

  lemma DayTextDistinct(d: Date, e: Date)
    requires IsDate(d) && IsDate(e) && d.year >= 0 && e.year >= 0 && DayText(d) == DayText(e)
    ensures d == e
  {
    TwoDigits(d.month);
    TwoDigits(e.month);
    TwoDigits(d.day);
    TwoDigits(e.day);
    SameTail(Pad(d.year, 4) + Pad(d.month, 2), Pad(d.day, 2), Pad(e.year, 4) + Pad(e.month, 2), Pad(e.day, 2));
    SameTail(Pad(d.year, 4), Pad(d.month, 2), Pad(e.year, 4), Pad(e.month, 2));
  }

  /** A receipt id tells its day, store and number, whatever the store is called. */
  lemma ReceiptIdDistinct(a: Sale, b: Sale)
    requires IsDate(a.day) && IsDate(b.day) && a.day.year >= 0 && b.day.year >= 0
    requires ReceiptId(a) == ReceiptId(b)
    ensures a == b
  {
    hide Pad, DayText;
    var x, y := DayText(a.day) + "-" + a.store, DayText(b.day) + "-" + b.store;
    assert ReceiptId(a)[2..] == x + "-" + Pad(a.number, 6) && ReceiptId(b)[2..] == y + "-" + Pad(b.number, 6);
    LastMark('-', x, Pad(a.number, 6), y, Pad(b.number, 6));
    FirstMark('-', DayText(a.day), a.store, DayText(b.day), b.store);
    DayTextDistinct(a.day, b.day);
  }

  lemma PadOne()
    ensures Pad(1, 6) == "000001"
  {
    hide Pad;
    ZerosAreZero(5);
    assert Zeros(2) == "00" && Zeros(3) == "000" && Zeros(4) == "0000" && Zeros(5) == "00000";
    assert "000001"[..5] == "00000";
    PadIs("000001");
  }

  /** The first receipt of a call, in store S1 on the first of May 2024. */
  lemma FirstReceipt()
    ensures ReceiptId(Sale(Date(2024, 5, 1), "S1", 1)) == "R-20240501-S1-000001"
  {
    hide Pad;
    assert DayText(Date(2024, 5, 1)) == "20240501" by {
      PadFour('2', '0', '2', '4');
      PadTwo('0', '5');
      PadTwo('0', '1');
    }
    PadOne();
  }

  /** The supplier days are every seventh day, the start included. */
  lemma {:induction false} WeeksAreWeeks(d: Date, n: nat)
    requires IsDate(d)
    ensures |WeeklyFrom(d, n)| == (n + 6) / 7
    ensures forall i | 0 <= i < |WeeklyFrom(d, n)| :: WeeklyFrom(d, n)[i] == AddDays(d, 7 * i)
  {
    hide AddDays;
    if n > 0 {
      WeeksAreWeeks(d, n - 1);
    }
  }

  /** Every sale of a call is numbered, from 1 on, with its day and its store. */
  lemma SalesAreNumbered(from: Date, stores: seq<string>, sold: seq<(nat, nat)>, batch: seq<string>, k: nat)
    requires IsDate(from) && from.year >= 0 && forall i | 0 <= i < |sold| :: sold[i].1 < |stores|
    requires AreSales(from, stores, sold, batch) && k < |batch|
    ensures IsDate(AddDays(from, sold[k].0)) && AddDays(from, sold[k].0).year >= 0
    ensures batch[k] == ReceiptId(Sale(AddDays(from, sold[k].0), stores[sold[k].1], k + 1))
  {
    hide ReceiptId;
    var s := SaleAt(from, stores, sold, k);
  }

  // What the facts of n days are.

  /** n days from d on. */
  function DaysFrom(d: Date, n: nat): (days: seq<Date>)
    requires IsDate(d)
    ensures |days| == n && forall i | 0 <= i < n :: days[i] == AddDays(d, i)
  {
    if n == 0 then [] else DaysFrom(d, n - 1) + [AddDays(d, n - 1)]
  }

  /** Every seventh of them, the first included. */
  function WeeklyFrom(d: Date, n: nat): (days: seq<Date>)
    requires IsDate(d)
  {
    if n == 0 then [] else WeeklyFrom(d, n - 1) + if (n - 1) % 7 == 0 then [AddDays(d, n - 1)] else []
  }

  /** The transactions of a call up to product p of store s on its d-th day, as (day of the call, store). */
  function Sold(draw: Draw, stores: nat, products: nat, d: nat, s: nat, p: nat): (r: seq<(nat, nat)>)
    requires s <= stores && (p > 0 ==> s < stores)
    ensures forall k | 0 <= k < |r| :: r[k].0 <= d && r[k].1 < stores && (s == 0 && p == 0 ==> r[k].0 < d)
    decreases d, s, p
  {
    if p > 0 then Sold(draw, stores, products, d, s, p - 1) + Repeat<(nat, nat)>((d, s), draw(d, s, p - 1))
    else if s > 0 then Sold(draw, stores, products, d, s - 1, products)
    else if d > 0 then Sold(draw, stores, products, d - 1, stores, 0)
    else []
  }

  function Repeat<T>(x: T, n: nat): (r: seq<T>)
    ensures |r| == n && forall i | 0 <= i < n :: r[i] == x
  {
    seq(n, i => x)
  }

  /** The sales of a call that starts on day `from`: their numbers run through the whole call. */
  function SaleAt(from: Date, stores: seq<string>, sold: seq<(nat, nat)>, k: nat): (s: Sale)
    requires IsDate(from) && k < |sold| && sold[k].1 < |stores|
    ensures IsDate(s.day) && s.day.year >= from.year
  {
    Sale(AddDays(from, sold[k].0), stores[sold[k].1], k + 1)
  }

  predicate AreSales(from: Date, stores: seq<string>, sold: seq<(nat, nat)>, batch: seq<string>)
    requires IsDate(from) && from.year >= 0 && forall k | 0 <= k < |sold| :: sold[k].1 < |stores|
  {
    && |batch| == |sold|
    && forall k | 0 <= k < |batch| :: batch[k] == ReceiptId(SaleAt(from, stores, sold, k))
  }

  /** The receipts of the d-th day of a call, numbered on from those it has already. */
  method DayReceipts(from: Date, stores: seq<string>, products: nat, draw: Draw, d: nat, before: seq<string>)
    returns (batch: seq<string>)
    requires IsDate(from) && from.year >= 0
    requires AreSales(from, stores, Sold(draw, |stores|, products, d, 0, 0), before)
    ensures AreSales(from, stores, Sold(draw, |stores|, products, d + 1, 0, 0), batch)
  {
    hide ReceiptId, AddDays, Sold, AreSales;
    batch := before;
    for s := 0 to |stores|
      invariant AreSales(from, stores, Sold(draw, |stores|, products, d, s, 0), batch)
    {
      for p := 0 to products
        invariant AreSales(from, stores, Sold(draw, |stores|, products, d, s, p), batch)
      {
        ghost var done := Sold(draw, |stores|, products, d, s, p);
        assert done + Repeat<(nat, nat)>((d, s), 0) == done;
        for i := 0 to draw(d, s, p)
          invariant AreSales(from, stores, done + Repeat<(nat, nat)>((d, s), i), batch)
        {
          ghost var sold := done + Repeat<(nat, nat)>((d, s), i + 1);
          OneMoreSale(from, stores, done + Repeat<(nat, nat)>((d, s), i), sold, batch);
          SalesCounted(from, stores, done + Repeat<(nat, nat)>((d, s), i), batch);
          batch := batch + [ReceiptId(Sale(AddDays(from, d), stores[s], |batch| + 1))];
        }
        NextPair(draw, |stores|, products, d, s, p);
      }
      NextStore(draw, |stores|, products, d, s);
    }
    NextDayOfCall(draw, |stores|, products, d);
  }

  lemma NextPair(draw: Draw, stores: nat, products: nat, d: nat, s: nat, p: nat)
    requires s < stores
    ensures Sold(draw, stores, products, d, s, p + 1)
         == Sold(draw, stores, products, d, s, p) + Repeat<(nat, nat)>((d, s), draw(d, s, p))
  {
  }

  lemma NextStore(draw: Draw, stores: nat, products: nat, d: nat, s: nat)
    requires s < stores
    ensures Sold(draw, stores, products, d, s + 1, 0) == Sold(draw, stores, products, d, s, products)
  {
  }

  lemma NextDayOfCall(draw: Draw, stores: nat, products: nat, d: nat)
    ensures Sold(draw, stores, products, d + 1, 0, 0) == Sold(draw, stores, products, d, stores, 0)
  {
  }

  lemma SalesCounted(from: Date, stores: seq<string>, sold: seq<(nat, nat)>, batch: seq<string>)
    requires IsDate(from) && from.year >= 0 && forall k | 0 <= k < |sold| :: sold[k].1 < |stores|
    requires AreSales(from, stores, sold, batch)
    ensures |batch| == |sold|
  {
  }

  lemma OneMoreDay(start: Date, done: nat, d: nat)
    requires IsDate(start)
    ensures var day := AddDays(AddDays(start, done), d);
            && DaysFrom(start, done + d + 1) == DaysFrom(start, done + d) + [day]
            && WeeklyFrom(start, done + d + 1)
               == WeeklyFrom(start, done + d) + if (done + d) % 7 == 0 then [day] else []
  {
    AddDaysTwice(start, done, d);
  }

  lemma Append<T>(a: seq<T>, b: seq<T>, x: T)
    ensures a + (b + [x]) == (a + b) + [x]
  {
  }

  lemma NothingSold(from: Date, stores: seq<string>, products: nat, draw: Draw)
    requires IsDate(from) && from.year >= 0
    ensures AreSales(from, stores, Sold(draw, |stores|, products, 0, 0, 0), [])
  {}

  lemma OneMoreSale(from: Date, stores: seq<string>, sold: seq<(nat, nat)>, more: seq<(nat, nat)>, batch: seq<string>)
    requires IsDate(from) && from.year >= 0 && forall k | 0 <= k < |more| :: more[k].1 < |stores|
    requires |more| == |sold| + 1 && more[..|sold|] == sold
    requires forall k | 0 <= k < |sold| :: sold[k].1 < |stores|
    requires AreSales(from, stores, sold, batch)
    ensures AreSales(from, stores, more, batch + [ReceiptId(SaleAt(from, stores, more, |sold|))])
  {
    hide ReceiptId, AddDays;
    forall k | 0 <= k < |sold|
      ensures SaleAt(from, stores, sold, k) == SaleAt(from, stores, more, k)
    {
      assert more[..|sold|][k] == more[k];
    }
  }

  /** The receipts are those of the sales, all of them from days before `current`, and no sale is there twice. */
  ghost predicate Booked(sales: seq<Sale>, receipts: seq<string>, current: Date) {
    && |sales| == |receipts| && NoDuplicates(sales)
    && forall i | 0 <= i < |sales| ::
         IsDate(sales[i].day) && sales[i].day.year >= 0 && Before(sales[i].day, current)
         && receipts[i] == ReceiptId(sales[i])
  }

  function NewSales(from: Date, stores: seq<string>, sold: seq<(nat, nat)>): (sales: seq<Sale>)
    requires IsDate(from) && forall k | 0 <= k < |sold| :: sold[k].1 < |stores|
    ensures |sales| == |sold| && forall k | 0 <= k < |sold| :: sales[k] == SaleAt(from, stores, sold, k)
  {
    seq(|sold|, k requires 0 <= k < |sold| => SaleAt(from, stores, sold, k))
  }

  /** The sales of a call are new: they are later than every sale before, and differ in number among themselves. */
  lemma Book(sales: seq<Sale>, receipts: seq<string>, from: Date, n: nat, stores: seq<string>, sold: seq<(nat, nat)>,
             batch: seq<string>)
    requires IsDate(from) && from.year >= 0 && forall k | 0 <= k < |sold| :: sold[k].0 < n && sold[k].1 < |stores|
    requires Booked(sales, receipts, from) && AreSales(from, stores, sold, batch)
    ensures Booked(sales + NewSales(from, stores, sold), receipts + batch, AddDays(from, n))
  {
    hide ReceiptId, AddDays;
    var more := NewSales(from, stores, sold);
    forall k | 0 <= k < |more|
      ensures Before(more[k].day, AddDays(from, n)) && !Before(more[k].day, from) && AtMost(from, AddDays(from, n))
    {
      NotBeforeStart(from, sold[k].0, n);
    }
    NotBeforeStart(from, 0, n);
  }

  lemma NotBeforeStart(from: Date, m: nat, n: nat)
    requires IsDate(from)
    ensures !Before(AddDays(from, m), from) && AtMost(from, AddDays(from, n))
    ensures m < n ==> Before(AddDays(from, m), AddDays(from, n))
  {
    if m > 0 {
      LaterIsAfter(from, 0, m);
    }
    if n > 0 {
      LaterIsAfter(from, 0, n);
    }
    if m < n {
      LaterIsAfter(from, m, n);
    }
  }

  /** The number of days done after a call on a day with the given horizon (the days from the start up to and with
      today); a refused call leaves them. */
  function AfterCall(done: int, count: int, horizon: int): int {
    if count <= 0 || done >= horizon then done else Min(done + count, horizon)
  }

  /** n days from the start on are generated, and current is the next. */
  ghost predicate Window(start: Date, n: nat, current: Date, suppliers: nat, facts: seq<Date>, supplierDays: seq<Date>) {
    && IsDate(start) && start.year >= 0 && IsDate(current) && current.year >= 0 && current == AddDays(start, n)
    && facts == DaysFrom(start, n) && supplierDays == if suppliers > 0 then WeeklyFrom(start, n) else []
  }

  lemma EmptyWindow(d: Date, suppliers: nat)
    requires IsDate(d) && d.year >= 0
    ensures Window(d, 0, d, suppliers, [], []) && Booked([], [], d)
  {
  }

  lemma LongerWindow(start: Date, n: nat, current: Date, suppliers: nat, facts: seq<Date>, supplierDays: seq<Date>,
                     days: nat, factRows: seq<Date>, supplierRows: seq<Date>)
    requires Window(start, n, current, suppliers, facts, supplierDays)
    requires facts + factRows == DaysFrom(start, n + days)
    requires supplierDays + supplierRows == if suppliers > 0 then WeeklyFrom(start, n + days) else []
    ensures Window(start, n + days, AddDays(current, days), suppliers, facts + factRows, supplierDays + supplierRows)
    ensures DayNumber(AddDays(current, days)) == DayNumber(current) + days
  {
    hide DayNumber, DaysFrom, WeeklyFrom;
    AddDaysTwice(start, n, days);
    AddDaysNumber(current, days);
  }

  class Seeder {
    var seeded: bool
    var current: Date
    var daysGenerated: nat
    var stores: seq<string>
    var products: nat
    var suppliers: nat
    /** What the calls have written: the day of every batch of facts of seed_days, the day of every batch of location
        stock (a row for each store and active product), the days with supplier stock, and the receipts' ids. */
    var factDays: seq<Date>
    var stockDays: seq<Date>
    var supplierDays: seq<Date>
    var receipts: seq<string>
    ghost var start: Date
    ghost var sales: seq<Sale>
    /** The day on which facts were last written. */
    ghost var clock: Date
    /** The day of the bootstrap. */
    ghost var anchor: Date

    ghost predicate Valid()
      reads this
    {
      && (seeded ==>
            && Window(start, daysGenerated, current, suppliers, factDays, supplierDays)
            && IsDate(anchor) && stockDays == [anchor] + factDays
            && Booked(sales, receipts, current)
            && (daysGenerated > 0 ==> IsDate(clock) && DayNumber(current) <= DayNumber(clock) + 1))
      && (!seeded ==>
            && daysGenerated == 0 && factDays == [] && stockDays == [] && supplierDays == [] && receipts == [])
    }

    /** The days that may still be written: up to and with today. */
    function DaysLeft(today: Date): int
      requires IsDate(current) && IsDate(today)
      reads this
    {
      Max(0, DayNumber(today) - DayNumber(current) + 1)
    }

    constructor ()
      ensures Valid() && !seeded
    {
      seeded, current, daysGenerated, stores, products, suppliers := false, Date(1, 1, 1), 0, [], 0, 0;
      factDays, stockDays, supplierDays, receipts, sales := [], [], [], [], [];
      start, clock, anchor := Date(1, 1, 1), Date(1, 1, 1), Date(1, 1, 1);
    }

    /** seed_master: the window opens seedDays before today, and the initial stock is dated today; a second call changes
        nothing. */
    method SeedMaster(today: Date, seedDays: int, stores: seq<string>, products: nat, suppliers: nat)
      requires Valid() && IsDate(today) && SubtractDays(today, seedDays).year >= 0
      modifies this
      ensures Valid() && seeded
      ensures clock == old(clock)
      ensures old(seeded) ==>
                && current == old(current) && daysGenerated == old(daysGenerated) && start == old(start)
                && anchor == old(anchor) && stockDays == old(stockDays)
                && factDays == old(factDays) && supplierDays == old(supplierDays) && receipts == old(receipts)
      ensures !old(seeded) ==>
                && start == current && DayNumber(current) == DayNumber(today) - seedDays && daysGenerated == 0
                && anchor == today && stockDays == [today] && factDays == []
                && this.stores == stores && this.products == products && this.suppliers == suppliers
    {
      hide DayNumber, SubtractDays, AddDays, Window, Booked;
      if seeded {
        return;
      }
      SubtractDaysNumber(today, seedDays);
      EmptyWindow(SubtractDays(today, seedDays), suppliers);
      var first := SubtractDays(today, seedDays);
      this.stores, this.products, this.suppliers, seeded, current, daysGenerated, stockDays, start, sales, anchor :=
        stores, products, suppliers, true, first, 0, [today], first, [], today;
    }

    /** reset_all: every table emptied, the state back to the beginning. */
    method ResetAll()
      modifies this
      ensures Valid() && !seeded && daysGenerated == 0 && factDays == [] && supplierDays == [] && receipts == []
      ensures stockDays == []
    {
      seeded, daysGenerated := false, 0;
      factDays, stockDays, supplierDays, receipts, sales := [], [], [], [], [];
    }

    lemma StartKnown()
      requires Valid() && seeded
      ensures IsDate(start) && IsDate(current) && current.year >= 0 && current == AddDays(start, daysGenerated)
      ensures factDays == DaysFrom(start, daysGenerated)
      ensures supplierDays == if suppliers > 0 then WeeklyFrom(start, daysGenerated) else []
    {
    }

    /** The rows of the next days, before anything is written. */
    method Facts(days: nat, draw: Draw)
      returns (receiptRows: seq<string>, factRows: seq<Date>, supplierRows: seq<Date>)
      requires Valid() && seeded
      ensures AreSales(current, stores, Sold(draw, |stores|, products, days, 0, 0), receiptRows)
      ensures factDays + factRows == DaysFrom(start, daysGenerated + days)
      ensures supplierDays + supplierRows == if suppliers > 0 then WeeklyFrom(start, daysGenerated + days) else []
    {
      hide AddDays, AreSales, Sold, DaysFrom, WeeklyFrom, Booked, DayNumber, IsDate;
      StartKnown();
      hide Valid;
      receiptRows, factRows, supplierRows := [], [], [];
      NothingSold(current, stores, products, draw);
      for d := 0 to days
        invariant AreSales(current, stores, Sold(draw, |stores|, products, d, 0, 0), receiptRows)
        invariant factDays + factRows == DaysFrom(start, daysGenerated + d)
        invariant supplierDays + supplierRows == if suppliers > 0 then WeeklyFrom(start, daysGenerated + d) else []
      {
        receiptRows := DayReceipts(current, stores, products, draw, d, receiptRows);
        OneMoreDay(start, daysGenerated, d);
        var day := AddDays(current, d);
        Append(factDays, factRows, day);
        factRows := factRows + [day];
        if (daysGenerated + d) % 7 == 0 && suppliers > 0 {
          Append(supplierDays, supplierRows, day);
          supplierRows := supplierRows + [day];
        }
      }
    }

    /** The rows go in and the state moves on, in one transaction. */
    method Write(days: nat, ghost today: Date, draw: Draw, receiptRows: seq<string>, factRows: seq<Date>,
                 supplierRows: seq<Date>)
      requires Valid() && seeded && IsDate(today) && DayNumber(current) + days <= DayNumber(today) + 1
      requires AreSales(current, stores, Sold(draw, |stores|, products, days, 0, 0), receiptRows)
      requires factDays + factRows == DaysFrom(start, daysGenerated + days)
      requires supplierDays + supplierRows == if suppliers > 0 then WeeklyFrom(start, daysGenerated + days) else []
      modifies `receipts, `factDays, `stockDays, `supplierDays, `daysGenerated, `current, `sales, `clock
      ensures clock == today
      ensures Valid() && daysGenerated == old(daysGenerated) + days && receipts == old(receipts) + receiptRows
      ensures DayNumber(current) == DayNumber(old(current)) + days
    {
      hide AddDays, AreSales, Sold, DayNumber, Booked, DaysFrom, WeeklyFrom, IsDate;
      StartKnown();
      hide Window;
      ghost var sold := Sold(draw, |stores|, products, days, 0, 0);
      Book(sales, receipts, current, days, stores, sold, receiptRows);
      LongerWindow(start, daysGenerated, current, suppliers, factDays, supplierDays, days, factRows, supplierRows);
      assert stockDays + factRows == [anchor] + (factDays + factRows);
      ghost var allSales := sales + NewSales(current, stores, sold);
      var next := AddDays(current, days);
      hide AreSales;
      receipts, factDays, stockDays, supplierDays, daysGenerated, current, sales, clock :=
        receipts + receiptRows, factDays + factRows, stockDays + factRows, supplierDays + supplierRows,
        daysGenerated + days, next, allSales, today;
    }

    /** seed_days: the facts of the next `count` days, or of as many as are left up to today. An error changes
        nothing. */
    method SeedDays(count: int, today: Date, draw: Draw) returns (r: Result<nat, Fault>)
      requires Valid() && IsDate(today)
      modifies `receipts, `factDays, `stockDays, `supplierDays, `daysGenerated, `current, `sales, `clock
      ensures Valid()
      ensures r == Err(BadCount) <==> count <= 0
      ensures r == Err(NotSeeded) <==> count > 0 && !old(seeded)
      ensures r == Err(NoDaysLeft) <==> count > 0 && old(seeded) && old(DaysLeft(today)) == 0
      ensures r == Err(NoStores) <==> count > 0 && old(seeded) && old(DaysLeft(today)) > 0 && stores == []
      ensures r.Err? ==> unchanged(this)
      ensures r.Ok? ==> clock == today && r.value == Min(count, old(DaysLeft(today)))
      ensures r.Ok? ==> daysGenerated == old(daysGenerated) + r.value
      ensures old(seeded) && stores != [] ==>
                daysGenerated == AfterCall(old(daysGenerated), count, DayNumber(today) + 1 - DayNumber(start))
      ensures r.Ok? ==> DayNumber(current) == DayNumber(old(current)) + r.value <= DayNumber(today) + 1
      ensures r.Ok? ==>
                var sold := Sold(draw, |stores|, products, r.value, 0, 0);
                && |old(receipts)| <= |receipts| && receipts[..|old(receipts)|] == old(receipts)
                && AreSales(old(current), stores, sold, receipts[|old(receipts)|..])
    {
      hide AddDays, AreSales, Sold, DayNumber, Booked, DaysFrom, WeeklyFrom, IsDate;
      if count <= 0 {
        return Err(BadCount);
      }
      if !seeded {
        return Err(NotSeeded);
      }
      AddDaysNumber(start, daysGenerated);
      var left := DaysLeft(today);
      if left == 0 {
        return Err(NoDaysLeft);
      }
      var days := Min(count, left);
      if stores == [] {
        return Err(NoStores);
      }
      var receiptRows, factRows, supplierRows := Facts(days, draw);
      Write(days, today, draw, receiptRows, factRows, supplierRows);
      r := Ok(days);
    }
  }

  /** No receipt id is ever given twice, although the numbering starts again with every call. */
  lemma ReceiptsNeverRepeat(s: Seeder)
    requires s.Valid()
    ensures NoDuplicates(s.receipts)
  {
    if s.seeded {
      forall i, j | 0 <= i < j < |s.receipts|
        ensures s.receipts[i] != s.receipts[j]
      {
        if s.receipts[i] == s.receipts[j] {
          ReceiptIdDistinct(s.sales[i], s.sales[j]);
          assert false;
        }
      }
    }
  }

  /** After any calls, every fact of seed_days is from the day of the last call that wrote facts or from before, and so
      from today or before unless the clock was put back; and seed_days writes no day twice. */
  lemma FactsArePast(s: Seeder, today: Date)
    requires s.Valid() && IsDate(today) && (s.factDays != [] ==> DayNumber(s.clock) <= DayNumber(today))
    ensures forall i | 0 <= i < |s.factDays| :: AtMost(s.factDays[i], s.clock) && AtMost(s.factDays[i], today)
    ensures forall i, j | 0 <= i < j < |s.factDays| :: Before(s.factDays[i], s.factDays[j])
  {
    hide DayNumber, AddDays, Booked;
    if s.factDays != [] {
      AddDaysNumber(s.start, s.daysGenerated);
      forall i | 0 <= i < |s.factDays|
        ensures AtMost(s.factDays[i], s.clock) && AtMost(s.factDays[i], today)
      {
        AddDaysNumber(s.start, i);
        DayNumberOrder(AddDays(s.start, i), s.clock);
        DayNumberOrder(AddDays(s.start, i), today);
      }
      forall i, j | 0 <= i < j < |s.factDays|
        ensures Before(s.factDays[i], s.factDays[j])
      {
        LaterIsAfter(s.start, i, j);
      }
    }
  }

  /** The days of seed_days are those from the start up to, and without, the current one. */
  lemma GeneratedDays(s: Seeder, d: Date)
    requires s.Valid() && s.seeded && IsDate(d)
    ensures d in s.factDays <==> DayNumber(s.start) <= DayNumber(d) < DayNumber(s.current)
  {
    hide DayNumber, AddDays, Booked;
    AddDaysNumber(s.start, s.daysGenerated);
    forall i: nat | i < s.daysGenerated
      ensures DayNumber(s.factDays[i]) == DayNumber(s.start) + i
    {
      AddDaysNumber(s.start, i);
    }
    var k := DayNumber(d) - DayNumber(s.start);
    if 0 <= k < s.daysGenerated {
      DayNumberOrder(d, s.factDays[k]);
      DayNumberOrder(s.factDays[k], d);
      SameNumberSameDay(d, s.factDays[k]);
    }
  }

  lemma SameNumberSameDay(d: Date, e: Date)
    requires IsDate(d) && IsDate(e) && DayNumber(d) == DayNumber(e)
    ensures d == e
  {
    DayNumberOrder(d, e);
    DayNumberOrder(e, d);
  }

  /** A day has location stock twice exactly when it is the day of the bootstrap, whose initial stock is dated that day,
      and the generated days have reached it; no day has it more often. */
  lemma StockTwice(s: Seeder, d: Date)
    requires s.Valid() && s.seeded && IsDate(d)
    ensures multiset(s.stockDays)[d] <= 2
    ensures multiset(s.stockDays)[d] == 2 <==>
            d == s.anchor && DayNumber(s.start) <= DayNumber(s.anchor) < DayNumber(s.current)
  {
    hide DayNumber, AddDays, Booked;
    GeneratedDays(s, d);
    EachDayOnce(s, d);
    hide Seeder.Valid;
    assert multiset(s.stockDays) == multiset{s.anchor} + multiset(s.factDays);
  }

  lemma EachDayOnce(s: Seeder, d: Date)
    requires s.Valid() && s.seeded
    ensures multiset(s.factDays)[d] == if d in s.factDays then 1 else 0
  {
    hide AddDays, Booked, DayNumber;
    forall i, j | 0 <= i < j < |s.factDays|
      ensures s.factDays[i] != s.factDays[j]
    {
      LaterIsAfter(s.start, i, j);
    }
    hide Seeder.Valid;
    CountDistinct(s.factDays, d);
  }

  lemma {:induction false} CountDistinct<T>(xs: seq<T>, x: T)
    requires forall i, j | 0 <= i < j < |xs| :: xs[i] != xs[j]
    ensures multiset(xs)[x] == if x in xs then 1 else 0
  {
    if xs != [] {
      var n := |xs| - 1;
      CountDistinct(xs[..n], x);
      assert xs == xs[..n] + [xs[n]];
    }
  }

  /** Any bootstrap whose whole window is then generated, today included, on the same day. */
  method SeedUpToToday(today: Date, seedDays: nat, stores: seq<string>, products: nat, suppliers: nat, draw: Draw)
    returns (s: Seeder)
    requires IsDate(today) && SubtractDays(today, seedDays).year >= 0 && stores != []
    ensures s.Valid() && multiset(s.stockDays)[today] == 2
  {
    hide AddDays, AreSales, Sold, Booked;
    s := new Seeder();
    s.SeedMaster(today, seedDays, stores, products, suppliers);
    var r := s.SeedDays(seedDays + 1, today, draw);
    StockTwice(s, today);
  }

  // Splitting a call.

  /** A call: how many days it asks for, and the days from the start up to and with its today. */
  datatype Call = Call(count: int, horizon: int)

  function AfterCalls(done: int, calls: seq<Call>): int {
    if calls == [] then done
    else
      var last := calls[|calls| - 1];
      AfterCall(AfterCalls(done, calls[..|calls| - 1]), last.count, last.horizon)
  }

  /** What the calls ask for together; a count that is not positive asks for nothing. */
  function Asked(calls: seq<Call>): nat {
    if calls == [] then 0 else Asked(calls[..|calls| - 1]) + Max(calls[|calls| - 1].count, 0)
  }

  /** Any number of calls on one day come to what one call for all of them does, refusals included. */
  lemma {:induction false} CallsAddUp(done: int, calls: seq<Call>, horizon: int)
    requires forall k | 0 <= k < |calls| :: calls[k].horizon == horizon
    ensures AfterCalls(done, calls) == AfterCall(done, Asked(calls), horizon)
  {
    if calls != [] {
      CallsAddUp(done, calls[..|calls| - 1], horizon);
    }
  }

  /** No more days than from the first i calls up to the day of the i-th, and what the later calls ask for. */
  function Bound(done: int, calls: seq<Call>, i: nat): int
    requires i <= |calls|
  {
    (if i == 0 then done else Max(done, calls[i - 1].horizon)) + Asked(calls[i..])
  }

  lemma BoundOfLonger(done: int, calls: seq<Call>, i: nat)
    requires i < |calls|
    ensures Bound(done, calls, i) == Bound(done, calls[..|calls| - 1], i) + Max(calls[|calls| - 1].count, 0)
  {
    assert calls[i..][..|calls| - 1 - i] == calls[..|calls| - 1][i..];
  }

  lemma LastBound(done: int, calls: seq<Call>)
    ensures Bound(done, calls, |calls|) == if calls == [] then done else Max(done, calls[|calls| - 1].horizon)
  {
  }

  /** The clock does not go back between the calls. */
  ghost predicate ClockGoesOn(calls: seq<Call>) {
    forall k, m | 0 <= k < m < |calls| :: calls[k].horizon <= calls[m].horizon
  }

  lemma {:induction false} BelowEveryBound(done: int, calls: seq<Call>, i: nat)
    requires ClockGoesOn(calls) && i <= |calls|
    ensures done <= AfterCalls(done, calls) <= Bound(done, calls, i)
  {
    hide Bound;
    LastBound(done, calls);
    if calls == [] {
      assert i == 0;
    } else {
      var init := calls[..|calls| - 1];
      BelowEveryBound(done, init, if i < |calls| then i else |init|);
      LastBound(done, init);
      if i < |calls| {
        BoundOfLonger(done, calls, i);
      }
    }
  }

  lemma {:induction false} ReachesABound(done: int, calls: seq<Call>) returns (i: nat)
    requires ClockGoesOn(calls)
    ensures i <= |calls| && AfterCalls(done, calls) == Bound(done, calls, i)
  {
    hide Bound;
    LastBound(done, calls);
    if calls == [] {
      i := 0;
    } else {
      var init := calls[..|calls| - 1];
      i := ReachesABound(done, init);
      BoundOfLonger(done, calls, i);
      BelowEveryBound(done, init, |init|);
      LastBound(done, init);
      if AfterCalls(done, calls) != Bound(done, calls, i) {
        i := |calls|;
      }
    }
  }

  /** While the clock does not go back, any calls leave exactly the smallest of these bounds. The last of them is the
      day of the last call: no facts from after it. */
  lemma CallsReachTheBound(done: int, calls: seq<Call>)
    requires ClockGoesOn(calls)
    ensures forall i | 0 <= i <= |calls| :: AfterCalls(done, calls) <= Bound(done, calls, i)
    ensures exists i :: 0 <= i <= |calls| && AfterCalls(done, calls) == Bound(done, calls, i)
  {
    hide *;
    forall i | 0 <= i <= |calls|
      ensures AfterCalls(done, calls) <= Bound(done, calls, i)
    {
      BelowEveryBound(done, calls, i);
    }
    var i := ReachesABound(done, calls);
  }

  /** The days of two calls are the days of one. */
  lemma {:induction false} DaysSplit(d: Date, m: nat, n: nat)
    requires IsDate(d)
    ensures DaysFrom(d, m + n) == DaysFrom(d, m) + DaysFrom(AddDays(d, m), n)
  {
    if n > 0 {
      DaysSplit(d, m, n - 1);
      AddDaysTwice(d, m, n - 1);
    }
  }

  /** The supplier days of a call that starts on day `from` with so many days done. */
  function SupplierDays(from: Date, done: nat, n: nat): seq<Date>
    requires IsDate(from)
  {
    if n == 0 then []
    else SupplierDays(from, done, n - 1) + if (done + n - 1) % 7 == 0 then [AddDays(from, n - 1)] else []
  }

  /** And the weekly rhythm goes on across calls. */
  lemma {:induction false} WeeksSplit(d: Date, m: nat, n: nat)
    requires IsDate(d)
    ensures WeeklyFrom(d, m + n) == WeeklyFrom(d, m) + SupplierDays(AddDays(d, m), m, n)
  {
    if n > 0 {
      WeeksSplit(d, m, n - 1);
      AddDaysTwice(d, m, n - 1);
    }
  }
}
