/** Which facts find a partition: the ticks of the scheduler against the window of facts that a load reads. */
module FactWindow {
  import opened Basics
  import opened Calendar
  import opened Partitions
  import opened LoadReport
  import B = BatchLoad
  import W = WriteConditions

  type Children = map<string, Partition>

  /** One pass over the partitions, and whether it got to its end. */
  datatype Tick = Tick(now: Date, ok: bool)

  /** What EnsureNextPartitions promises of a pass. */
  ghost predicate Ticked(before: Children, after: Children, tick: Tick, monthsAhead: int) {
    && IsDate(tick.now) && WellNamed(after) && Extends(after, before) && OnlyWindow(after, before, tick.now, monthsAhead)
    && (tick.ok ==> WindowThere(after, tick.now, monthsAhead))
  }

  /** Passes one after the other: c[i] is what pass i finds and c[i + 1] what it leaves. */
  ghost predicate AreTicks(c: seq<Children>, ticks: seq<Tick>, monthsAhead: int) {
    && |c| == |ticks| + 1 && WellNamed(c[0])
    && forall i | 0 <= i < |ticks| :: Ticked(c[i], c[i + 1], ticks[i], monthsAhead)
  }

  /** The table has a partition for the month with this number. */
  ghost predicate HasMonth(children: Children, table: string, m: int) {
    exists n | n in children :: children[n].parent == table && MonthIndex(children[n].range.from) == m
  }

  ghost predicate InPartition(children: Children, table: string, d: Date) {
    exists n | n in children :: children[n].parent == table && Covers(children[n].range, d)
  }

  /** The month is that of the tick or up to monthsAhead months after it. */
  predicate InWindow(tick: Tick, monthsAhead: int, m: int) {
    MonthIndex(tick.now) <= m <= MonthIndex(tick.now) + monthsAhead
  }

  ghost predicate InSomeWindow(ticks: seq<Tick>, monthsAhead: int, m: int) {
    exists i :: 0 <= i < |ticks| && InWindow(ticks[i], monthsAhead, m)
  }

  lemma FactsFallByMonth(children: Children, table: string, d: Date)
    requires WellNamed(children) && IsDate(d)
    ensures InPartition(children, table, d) <==> HasMonth(children, table, MonthIndex(d))
  {
    hide IsMonth, Covers, MonthIndex, ChildTableName;
    forall n | n in children
      ensures Covers(children[n].range, d) <==> MonthIndex(d) == MonthIndex(children[n].range.from)
    {
      CoversItsDates(children[n].range, d);
    }
  }

  function MonthOf(m: int): (r: MonthRange)
    ensures IsMonth(r) && MonthIndex(r.from) == m
  {
    var first := Date((m - 1) / 12, (m - 1) % 12 + 1, 1);
    MonthRange(first, FirstOfNextMonth(first.year, first.month))
  }

  lemma OneTick(before: Children, after: Children, tick: Tick, monthsAhead: int, table: string, m: int)
    requires Ticked(before, after, tick, monthsAhead) && IsPartitioned(table)
    ensures HasMonth(before, table, m) || (tick.ok && InWindow(tick, monthsAhead, m)) ==> HasMonth(after, table, m)
    ensures HasMonth(after, table, m) ==> HasMonth(before, table, m) || InWindow(tick, monthsAhead, m)
  {
    hide IsMonth, MonthIndex, ChildTableName, IsPartitioned;
    if tick.ok && InWindow(tick, monthsAhead, m) {
      assert Has(after, Partition(table, MonthOf(m)));
    }
  }

  /** After any passes a table has the months it had before and those of the windows of the passes; a pass that failed
      may have left out some of its own. */
  lemma {:induction false} MonthsAfterTicks(c: seq<Children>, ticks: seq<Tick>, monthsAhead: int, table: string, m: int)
    requires AreTicks(c, ticks, monthsAhead) && IsPartitioned(table)
    ensures HasMonth(c[|ticks|], table, m) ==> HasMonth(c[0], table, m) || InSomeWindow(ticks, monthsAhead, m)
    ensures HasMonth(c[0], table, m) || (exists i :: 0 <= i < |ticks| && ticks[i].ok && InWindow(ticks[i], monthsAhead, m))
            ==> HasMonth(c[|ticks|], table, m)
    decreases |ticks|
  {
    hide HasMonth, InWindow, Ticked, IsPartitioned, WellNamed;
    if ticks != [] {
      var n := |ticks| - 1;
      MonthsAfterTicks(c[..n + 1], ticks[..n], monthsAhead, table, m);
      OneTick(c[n], c[n + 1], ticks[n], monthsAhead, table, m);
      forall i | 0 <= i < n
        ensures ticks[..n][i] == ticks[i]
      {}
    }
  }

  ghost predicate AllOk(ticks: seq<Tick>) { forall i | 0 <= i < |ticks| :: ticks[i].ok }

  lemma MonthsAfter(c: seq<Children>, ticks: seq<Tick>, monthsAhead: int, table: string, m: int)
    requires AreTicks(c, ticks, monthsAhead) && IsPartitioned(table) && AllOk(ticks)
    ensures HasMonth(c[|ticks|], table, m) <==> HasMonth(c[0], table, m) || InSomeWindow(ticks, monthsAhead, m)
  {
    hide HasMonth, InWindow, Ticked, IsPartitioned, WellNamed;
    MonthsAfterTicks(c, ticks, monthsAhead, table, m);
  }

  /** A day of the window [from, to] in the month with number m. */
  lemma DayInMonth(from: Date, to: Date, m: int) returns (d: Date)
    requires IsDate(from) && IsDate(to) && AtMost(from, to) && MonthIndex(from) <= m <= MonthIndex(to)
    ensures IsDate(d) && AtMost(from, d) && AtMost(d, to) && MonthIndex(d) == m
  {
    d := if m == MonthIndex(from) then from else MonthOf(m).from;
  }

  lemma MonthOfDay(from: Date, to: Date, d: Date)
    requires AtMost(from, d) && AtMost(d, to) && IsDate(from) && IsDate(to) && IsDate(d)
    ensures MonthIndex(from) <= MonthIndex(d) <= MonthIndex(to)
  {
  }

  ghost predicate InRange(from: Date, to: Date, d: Date) { IsDate(d) && AtMost(from, d) && AtMost(d, to) }

  /** Every day of the window has a partition. */
  ghost predicate DaysCovered(children: Children, table: string, from: Date, to: Date) {
    forall d | InRange(from, to, d) :: InPartition(children, table, d)
  }

  /** Every month of the window has a partition. */
  ghost predicate MonthsCovered(children: Children, table: string, from: Date, to: Date) {
    forall m | MonthIndex(from) <= m <= MonthIndex(to) :: HasMonth(children, table, m)
  }

  lemma DaysByMonths(children: Children, table: string, from: Date, to: Date)
    requires WellNamed(children) && IsDate(from) && IsDate(to) && AtMost(from, to)
    ensures DaysCovered(children, table, from, to) <==> MonthsCovered(children, table, from, to)
  {
    hide WellNamed, InPartition, HasMonth, MonthIndex;
    if DaysCovered(children, table, from, to) {
      forall m | MonthIndex(from) <= m <= MonthIndex(to)
        ensures HasMonth(children, table, m)
      {
        var d := DayInMonth(from, to, m);
        assert InRange(from, to, d);
        FactsFallByMonth(children, table, d);
      }
    }
    if MonthsCovered(children, table, from, to) {
      forall d | InRange(from, to, d)
        ensures InPartition(children, table, d)
      {
        MonthOfDay(from, to, d);
        FactsFallByMonth(children, table, d);
      }
    }
  }

  lemma StillWellNamed(c: seq<Children>, ticks: seq<Tick>, monthsAhead: int)
    requires AreTicks(c, ticks, monthsAhead)
    ensures WellNamed(c[|ticks|])
  {
    if ticks != [] {
      assert Ticked(c[|ticks| - 1], c[|ticks|], ticks[|ticks| - 1], monthsAhead);
    }
  }

  /** Every fact of a window has a partition exactly when each month of the window had one before the ticks or was the
      current month or ahead at one of them. */
  lemma WindowIsCovered(c: seq<Children>, ticks: seq<Tick>, monthsAhead: int, table: string, from: Date, to: Date)
    requires AreTicks(c, ticks, monthsAhead) && IsPartitioned(table) && AllOk(ticks)
    requires IsDate(from) && IsDate(to) && AtMost(from, to)
    ensures DaysCovered(c[|ticks|], table, from, to)
       <==> forall m | MonthIndex(from) <= m <= MonthIndex(to) ::
              HasMonth(c[0], table, m) || InSomeWindow(ticks, monthsAhead, m)
  {
    hide IsDate, AtMost, MonthIndex, HasMonth, InSomeWindow, DaysCovered, WellNamed, Ticked, IsPartitioned, AllOk;
    StillWellNamed(c, ticks, monthsAhead);
    DaysByMonths(c[|ticks|], table, from, to);
    forall m
      ensures HasMonth(c[|ticks|], table, m) <==> HasMonth(c[0], table, m) || InSomeWindow(ticks, monthsAhead, m)
    {
      MonthsAfter(c, ticks, monthsAhead, table, m);
    }
  }

  // The load.

  /** The loader's table has the partitions of the catalog. */
  ghost predicate HasPartitionsOf(t: B.Table, children: Children, table: string) {
    forall m :: m in t.months <==> HasMonth(children, table, m)
  }

  /** A fact of day d whose other columns are in order fits exactly when its day has a partition, and is refused for the
      missing partition otherwise. */
  lemma FactFits(ts: B.Tables, e: Entity, children: Children, table: string, row: B.Row, d: Date)
    requires WellNamed(children) && IsDate(d) && HasPartitionsOf(B.TableOf(ts, e), children, table)
    requires row.fits && row.month == Some(MonthIndex(d))
    ensures W.Fits(B.TableOf(ts, e), row) <==> InPartition(children, table, d)
    ensures !InPartition(children, table, d) ==> B.WriteRow(ts, e, row) == Err(B.NoPartition)
  {
    FactsFallByMonth(children, table, d);
    hide HasMonth, InPartition, MonthIndex, B.SkuTaken, B.Dangling;
  }

  /** In a database that begins without partitions, no tick makes room for a fact from before its own month. */
  lemma OldFactsHaveNoPlace(c: seq<Children>, ticks: seq<Tick>, monthsAhead: int, table: string, d: Date)
    requires AreTicks(c, ticks, monthsAhead) && IsPartitioned(table) && IsDate(d) && c[0] == map[]
    requires forall i | 0 <= i < |ticks| :: MonthIndex(d) < MonthIndex(ticks[i].now)
    ensures !HasMonth(c[|ticks|], table, MonthIndex(d))
  {
    MonthsAfterTicks(c, ticks, monthsAhead, table, MonthIndex(d));
  }
}
