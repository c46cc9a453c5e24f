/** Monthly partitions of the fact tables (data_export/scheduler/partitions.go). */
module Partitions {
  import opened Basics
  import opened Calendar
  import opened Text

  /** From the first day of a month up to, and without, the first day of the next. */
  datatype MonthRange = MonthRange(from: Date, to: Date)

  datatype Partition = Partition(parent: string, range: MonthRange)

  const TABLE_COUNT: nat := 4

  /** The partitioned tables, in the order in which they are served. */
  function TableName(i: nat): string
    requires i < TABLE_COUNT
  {
    if i == 0 then "receipt_line" else if i == 1 then "location_stock_snapshot"
    else if i == 2 then "stock_movement" else "supplier_stock_snapshot"
  }

  ghost predicate IsPartitioned(table: string) {
    || table == "receipt_line" || table == "location_stock_snapshot"
    || table == "stock_movement" || table == "supplier_stock_snapshot"
  }

  lemma TableNames(table: string)
    ensures IsPartitioned(table) <==> exists i | 0 <= i < TABLE_COUNT :: table == TableName(i)
  {
    assert TableName(0) == "receipt_line" && TableName(1) == "location_stock_snapshot";
    assert TableName(2) == "stock_movement" && TableName(3) == "supplier_stock_snapshot";
  }

  lemma NameIsPartitioned(t: nat)
    requires t < TABLE_COUNT
    ensures IsPartitioned(TableName(t))
  {}

  predicate IsMonth(r: MonthRange) {
    IsDate(r.from) && r.from.day == 1 && r.to == FirstOfNextMonth(r.from.year, r.from.month)
  }

  predicate Covers(r: MonthRange, d: Date) { AtMost(r.from, d) && Before(d, r.to) }

  predicate Overlap(r: MonthRange, s: MonthRange) { Before(r.from, s.to) && Before(s.from, r.to) }

  /** Months are numbered one after the other. */
  function MonthIndex(d: Date): int { 12 * d.year + d.month }

  /** nextMonthRanges: the month of `now` and the given number of months after it. */
  method NextMonthRanges(now: Date, monthsAhead: int) returns (out: seq<MonthRange>)
    requires IsDate(now) && monthsAhead >= -1
    ensures IsWindow(out, now, monthsAhead)
  {
    out := [];
    var cur := Date(now.year, now.month, 1);
    for i := 0 to monthsAhead + 1
      invariant |out| == i && IsDate(cur) && cur.day == 1 && MonthIndex(cur) == MonthIndex(now) + i
      invariant forall j | 0 <= j < i :: IsMonth(out[j]) && MonthIndex(out[j].from) == MonthIndex(now) + j
    {
      var next := FirstOfNextMonth(cur.year, cur.month);
      out := out + [MonthRange(cur, next)];
      cur := next;
    }
  }

  ghost predicate IsWindow(ranges: seq<MonthRange>, now: Date, monthsAhead: int) {
    && |ranges| == monthsAhead + 1
    && forall j | 0 <= j < |ranges| :: IsMonth(ranges[j]) && MonthIndex(ranges[j].from) == MonthIndex(now) + j
  }

  /** A month covers exactly the dates that carry its number. */
  lemma CoversItsDates(r: MonthRange, d: Date)
    requires IsMonth(r) && IsDate(d)
    ensures Covers(r, d) <==> MonthIndex(d) == MonthIndex(r.from)
  {}

  /** The ranges of a window are adjacent months, the first of them that of `now`. */
  lemma WindowIsAdjacent(ranges: seq<MonthRange>, now: Date, monthsAhead: int)
    requires IsDate(now) && monthsAhead >= -1 && IsWindow(ranges, now, monthsAhead)
    ensures ranges != [] ==> ranges[0].from == Date(now.year, now.month, 1)
    ensures forall j | 0 <= j < |ranges| - 1 :: ranges[j].to == ranges[j + 1].from
  {}

  /** They cover each day of these months once, and no other day. */
  lemma WindowCoversOnce(ranges: seq<MonthRange>, now: Date, monthsAhead: int, d: Date)
    requires IsDate(now) && IsDate(d) && monthsAhead >= -1 && IsWindow(ranges, now, monthsAhead)
    ensures (exists j | 0 <= j < |ranges| :: Covers(ranges[j], d))
       <==> MonthIndex(now) <= MonthIndex(d) <= MonthIndex(now) + monthsAhead
    ensures forall i, j | 0 <= i < j < |ranges| :: !(Covers(ranges[i], d) && Covers(ranges[j], d))
  {
    hide Covers, IsDate, IsMonth, MonthIndex;
    forall j | 0 <= j < |ranges|
      ensures Covers(ranges[j], d) <==> MonthIndex(d) == MonthIndex(now) + j
    {
      CoversItsDates(ranges[j], d);
    }
    var k := MonthIndex(d) - MonthIndex(now);
    if 0 <= k < |ranges| {
      assert Covers(ranges[k], d);
    }
  }

  /** Any two months are the same or have no day in common. */
  lemma SameOrDisjoint(r: MonthRange, s: MonthRange)
    requires IsMonth(r) && IsMonth(s)
    ensures r == s <==> MonthIndex(r.from) == MonthIndex(s.from)
    ensures r == s <==> Overlap(r, s)
  {}

  // Names.

  /** %04d of a year: the sign counts towards the width. */
  function FourDigits(year: int): (s: string)
    ensures '_' !in s
  {
    if year < 0 then "-" + Pad(-year, 3) else Pad(year, 4)
  }

  function MonthTag(d: Date): (s: string)
    requires IsDate(d)
    ensures '_' !in s
  {
    "y" + FourDigits(d.year) + "m" + Pad(d.month, 2)
  }

  /** <parent>_yYYYYmMM */
  function ChildTableName(parent: string, d: Date): string
    requires IsDate(d)
  {
    parent + "_" + MonthTag(d)
  }

  lemma SignTells(year: int)
    ensures FourDigits(year) != "" && (FourDigits(year)[0] == '-' <==> year < 0)
  {
    if year >= 0 {
      assert Pad(year, 4)[0] in Pad(year, 4);
    }
  }

  lemma YearTextDistinct(y: int, z: int)
    requires FourDigits(y) == FourDigits(z)
    ensures y == z
  {
    SignTells(y);
    SignTells(z);
    if y < 0 {
      assert FourDigits(y)[1..] == Pad(-y, 3) && FourDigits(z)[1..] == Pad(-z, 3);
    }
  }

  lemma MonthTagDistinct(d: Date, e: Date)
    requires IsDate(d) && IsDate(e) && MonthTag(d) == MonthTag(e)
    ensures MonthIndex(d) == MonthIndex(e)
  {
    TwoDigits(d.month);
    TwoDigits(e.month);
    var y, z := FourDigits(d.year), FourDigits(e.year);
    hide FourDigits, IsDate;
    SameTail("y" + y + "m", Pad(d.month, 2), "y" + z + "m", Pad(e.month, 2));
    SameTail("y" + y, "m", "y" + z, "m");
    assert y == ("y" + y)[1..] && z == ("y" + z)[1..];
    YearTextDistinct(d.year, e.year);
  }

  /** A name tells its parent and its month. */
  lemma NamesDistinct(p: string, d: Date, q: string, e: Date)
    requires IsDate(d) && IsDate(e)
    ensures ChildTableName(p, d) == ChildTableName(q, e) <==> p == q && MonthIndex(d) == MonthIndex(e)
  {
    hide FourDigits, Pad;
    if ChildTableName(p, d) == ChildTableName(q, e) {
      LastMark('_', p, MonthTag(d), q, MonthTag(e));
      MonthTagDistinct(d, e);
    } else if MonthIndex(d) == MonthIndex(e) {
      assert d.year == e.year && d.month == e.month;
    }
  }

  // The database.

  /** Every child table is named for its parent and month. */
  ghost predicate WellNamed(children: map<string, Partition>) {
    forall n | n in children ::
      IsMonth(children[n].range) && n == ChildTableName(children[n].parent, children[n].range.from)
  }

  /** Then two children of one parent never overlap. */
  lemma ChildrenAreDisjoint(children: map<string, Partition>, m: string, n: string)
    requires WellNamed(children) && m in children && n in children && m != n
    requires children[m].parent == children[n].parent
    ensures !Overlap(children[m].range, children[n].range)
  {
    NamesDistinct(children[m].parent, children[m].range.from, children[n].parent, children[n].range.from);
    SameOrDisjoint(children[m].range, children[n].range);
  }

  class Catalog {
    var children: map<string, Partition>

    constructor (children: map<string, Partition>)
      ensures this.children == children
    {
      this.children := children;
    }

    /** CREATE TABLE IF NOT EXISTS child PARTITION OF parent FOR VALUES FROM ... TO ...: refused when the range
        overlaps another child of the parent. */
    method CreateIfNotExists(child: string, p: Partition) returns (ok: bool)
      modifies this
      ensures ok <==> child in old(children) || !Taken(old(children), p)
      ensures children == if child !in old(children) && ok then old(children)[child := p] else old(children)
    {
      if child in children {
        return true;
      }
      var names := children.Keys;
      while names != {}
        invariant names <= children.Keys && child !in children && children == old(children)
        invariant forall n | n in children && n !in names :: !Clash(children[n], p)
      {
        var n := AnyOf(names);
        if Clash(children[n], p) {
          return false;
        }
        names := names - {n};
      }
      children := children[child := p];
      ok := true;
    }
  }

  predicate Clash(a: Partition, b: Partition) { a.parent == b.parent && Overlap(a.range, b.range) }

  ghost predicate Taken(children: map<string, Partition>, p: Partition) {
    exists n | n in children :: Clash(children[n], p)
  }

  /** In a well-named catalog no month is refused: if its range is taken, its name is too. */
  lemma NeverRefused(children: map<string, Partition>, p: Partition)
    requires WellNamed(children) && IsMonth(p.range)
    ensures Taken(children, p) ==> ChildTableName(p.parent, p.range.from) in children
    ensures WellNamed(children[ChildTableName(p.parent, p.range.from) := p])
    ensures ChildTableName(p.parent, p.range.from) in children ==>
              children[ChildTableName(p.parent, p.range.from)] == p
  {
    forall n | n in children
      ensures n == ChildTableName(p.parent, p.range.from) <==> Clash(children[n], p)
      ensures Clash(children[n], p) ==> children[n] == p
    {
      NamesDistinct(children[n].parent, children[n].range.from, p.parent, p.range.from);
      SameOrDisjoint(children[n].range, p.range);
    }
  }

  ghost predicate Extends(after: map<string, Partition>, before: map<string, Partition>) {
    forall n | n in before :: n in after && after[n] == before[n]
  }

  /** Whatever is new belongs to a partitioned table and to a month of the window. */
  ghost predicate OnlyWindow(after: map<string, Partition>, before: map<string, Partition>, now: Date, monthsAhead: int) {
    forall n | n in after && n !in before ::
      && IsPartitioned(after[n].parent)
      && MonthIndex(now) <= MonthIndex(after[n].range.from) <= MonthIndex(now) + monthsAhead
  }

  predicate Has(children: map<string, Partition>, p: Partition) {
    IsDate(p.range.from) &&
    var n := ChildTableName(p.parent, p.range.from);
    n in children && children[n] == p
  }

  /** Every month of the window is there for the first t tables, and the first k months for the next one. */
  ghost predicate Filled(children: map<string, Partition>, ranges: seq<MonthRange>, t: nat, k: nat) {
    forall u, j | 0 <= u < TABLE_COUNT && 0 <= j < |ranges| ::
      u < t || (u == t && j < k) ==> Has(children, Partition(TableName(u), ranges[j]))
  }

  /** Every partitioned table has a partition for every month of the window. */
  ghost predicate WindowThere(children: map<string, Partition>, now: Date, monthsAhead: int) {
    forall table, r: MonthRange | IsPartitioned(table) && IsMonth(r) ::
      MonthIndex(now) <= MonthIndex(r.from) <= MonthIndex(now) + monthsAhead ==> Has(children, Partition(table, r))
  }

  lemma Unchanged(children: map<string, Partition>, now: Date, monthsAhead: int)
    requires WellNamed(children)
    ensures forall ranges :: Progress(children, children, ranges, 0, 0, now, monthsAhead)
  {}

  /** Where the two loops stand. */
  ghost predicate Progress(children: map<string, Partition>, before: map<string, Partition>, ranges: seq<MonthRange>,
                           t: nat, k: nat, now: Date, monthsAhead: int)
  {
    && WellNamed(children) && Extends(children, before) && OnlyWindow(children, before, now, monthsAhead)
    && Filled(children, ranges, t, k)
  }

  /** EnsureNextPartitions: the only thing that stops it is the database (`down` says when statement i fails).
      What is there stays, and on success every table has a partition for every month of the window. */
  method EnsureNextPartitions(db: Catalog, now: Date, monthsAhead: int, down: nat -> bool)
    returns (ok: bool, statements: nat)
    requires IsDate(now) && monthsAhead >= -1 && WellNamed(db.children)
    modifies db
    ensures WellNamed(db.children) && Extends(db.children, old(db.children))
    ensures OnlyWindow(db.children, old(db.children), now, monthsAhead)
    ensures ok <==> forall i: nat | i < statements :: !down(i)
    ensures ok ==> WindowThere(db.children, now, monthsAhead)
  {
    hide WellNamed, Extends, OnlyWindow, Filled, IsWindow, TableName, ChildTableName, Taken, IsDate, WindowThere;
    ghost var before := db.children;
    Unchanged(before, now, monthsAhead);
    var ranges := NextMonthRanges(now, monthsAhead);
    statements, ok := 0, true;
    for t := 0 to TABLE_COUNT
      invariant Progress(db.children, before, ranges, t, 0, now, monthsAhead)
      invariant forall i: nat | i < statements :: !down(i)
    {
      for k := 0 to |ranges|
        invariant Progress(db.children, before, ranges, t, k, now, monthsAhead)
        invariant forall i: nat | i < statements :: !down(i)
      {
        OneMore(db.children, before, ranges, t, k, now, monthsAhead);
        statements := statements + 1;
        if down(statements - 1) {
          return false, statements;
        }
        var p := Partition(TableName(t), ranges[k]);
        ok := db.CreateIfNotExists(ChildTableName(p.parent, p.range.from), p);
      }
      NextTable(db.children, ranges, t);
    }
    EveryMonth(db.children, ranges, now, monthsAhead);
    return true, statements;
  }

  lemma NextTable(children: map<string, Partition>, ranges: seq<MonthRange>, t: nat)
    ensures Filled(children, ranges, t, |ranges|) ==> Filled(children, ranges, t + 1, 0)
  {}

  lemma OneMore(children: map<string, Partition>, before: map<string, Partition>, ranges: seq<MonthRange>,
                t: nat, k: nat, now: Date, monthsAhead: int)
    requires IsDate(now) && monthsAhead >= -1 && IsWindow(ranges, now, monthsAhead)
    requires t < TABLE_COUNT && k < |ranges|
    requires Progress(children, before, ranges, t, k, now, monthsAhead)
    ensures IsDate(ranges[k].from)
    ensures var p := Partition(TableName(t), ranges[k]);
            var n := ChildTableName(p.parent, p.range.from);
            && Progress(if n in children then children else children[n := p], before, ranges, t, k + 1, now, monthsAhead)
            && (n in children || !Taken(children, p))
  {
    hide ChildTableName, Taken, WellNamed, IsPartitioned, TableName;
    NameIsPartitioned(t);
    NeverRefused(children, Partition(TableName(t), ranges[k]));
  }

  lemma EveryMonth(children: map<string, Partition>, ranges: seq<MonthRange>, now: Date, monthsAhead: int)
    requires IsDate(now) && monthsAhead >= -1 && IsWindow(ranges, now, monthsAhead)
    requires Filled(children, ranges, TABLE_COUNT, 0)
    ensures WindowThere(children, now, monthsAhead)
  {
    forall table, r: MonthRange | IsPartitioned(table) && IsMonth(r)
                                  && MonthIndex(now) <= MonthIndex(r.from) <= MonthIndex(now) + monthsAhead
      ensures Has(children, Partition(table, r))
    {
      TableNames(table);
      var u :| 0 <= u < TABLE_COUNT && table == TableName(u);
      var j := MonthIndex(r.from) - MonthIndex(now);
      SameOrDisjoint(r, ranges[j]);
      assert Has(children, Partition(TableName(u), ranges[j]));
    }
  }

  /** The name of a month is the parent, "_y", the year in four digits, "m" and the month in two. */
  lemma NameParts(parent: string, d: Date)
    requires IsDate(d) && 0 <= d.year <= 9999
    ensures var n, k := ChildTableName(parent, d), |parent|;
            && |n| == k + 9 && n[..k] == parent && n[k..k + 2] == "_y" && n[k + 6] == 'm'
            && AllDigits(n[k + 2..k + 6]) && Value(n[k + 2..k + 6]) == d.year
            && AllDigits(n[k + 7..]) && Value(n[k + 7..]) == d.month
  {
    Calendar.FourDigits(d.year);
    TwoDigits(d.month);
    hide Pad, IsDate, AllDigits, Value;
    var y, m, k := Pad(d.year, 4), Pad(d.month, 2), |parent|;
    var n := ChildTableName(parent, d);
    assert n == parent + "_y" + y + "m" + m;
    assert n[k + 2..k + 6] == y && n[k + 7..] == m;
  }
}
