/** What a whole mart scan yields while the rows of its run stay in place: each row exactly once, in key order, as long
    as the keys at the page ends survive the trip through the cursor. */
module MartScan {
  import opened Basics
  import opened Keyset
  import opened MartCursor
  import opened MartReader
  import opened Text
  import opened VersionCache
  import ExportPages

  type Rows<+D> = seq<Row<Key, D>>

  /** The rows collected from the cursor on, if the scan ends within so many requests. */
  function Walk<D(!new)>(less: Order<string>, shape: Shape, t: Rows<D>, pk: string, limit: nat, requests: nat):
    Option<Rows<D>>
    requires limit >= 1
    decreases requests
  {
    if requests == 0 then None
    else
      var page := Select(less, shape, t, pk, limit);
      if page.1 == "" then Some(page.0)
      else
        match Walk(less, shape, t, page.1, limit, requests - 1)
        case None => None
        case Some(rest) => Some(page.0 + rest)
  }

  lemma WalkOnce<D(!new)>(less: Order<string>, shape: Shape, t: Rows<D>, pk: string, limit: nat, n: nat)
    requires limit >= 1 && n > 0
    ensures var page := Select(less, shape, t, pk, limit);
            Walk(less, shape, t, pk, limit, n)
            == if page.1 == "" then Some(page.0)
            else match Walk(less, shape, t, page.1, limit, n - 1)
                 case None => None
                 case Some(rest) => Some(page.0 + rest)
  {}

  lemma WalkNowhere<D(!new)>(less: Order<string>, shape: Shape, t: Rows<D>, pk: string, limit: nat)
    requires limit >= 1
    ensures Walk(less, shape, t, pk, limit, 0) == None
  {}

  lemma FormatKeyNotEmpty(shape: Shape, k: Key)
    ensures FormatKey(shape, k) != ""
  {}

  /** The key that a page filters on when it comes behind the first b rows. */
  function FilterKey<D>(shape: Shape, t: Rows<D>, b: nat): Key
    requires b <= |t|
  {
    if b == 0 then START else ParseKey(shape, FormatKey(shape, t[b - 1].key))
  }

  /** It lets exactly the rows from b on through. */
  ghost predicate CutsAt<D>(less: Order<string>, t: Rows<D>, c: Key, b: nat) {
    forall i | 0 <= i < |t| :: KeyLess(less)(c, t[i].key) <==> b <= i
  }

  /** It does so at all the page boundaries b, b + limit, ... */
  ghost predicate AgreesFrom<D>(less: Order<string>, shape: Shape, t: Rows<D>, b: nat, limit: nat)
    requires b <= |t| && limit >= 1
    decreases |t| - b
  {
    && CutsAt(less, t, FilterKey(shape, t, b), b)
    && (b + limit <= |t| ==> AgreesFrom(less, shape, t, b + limit, limit))
  }

  lemma CutPage<D(!new)>(less: Order<string>, shape: Shape, t: Rows<D>, pk: string, j: nat, limit: nat)
    requires limit >= 1 && j <= |t| && CutsAt(less, t, ParseKey(shape, pk), j)
    ensures var page := Select(less, shape, t, pk, limit);
            && page.0 == t[j..Min(j + limit, |t|)]
            && (page.1 == "" <==> |t| < j + limit)
            && (j + limit <= |t| ==> page.1 == FormatKey(shape, t[j + limit - 1].key))
  {
    hide KeyLess, ParseKey, FormatKey, Page;
    PageIsSlice(KeyLess(less), ParseKey(shape, pk), t, j, limit);
    if j + limit <= |t| {
      FormatKeyNotEmpty(shape, t[j + limit - 1].key);
    }
  }

  /** Any key cuts a sorted table somewhere. */
  lemma {:induction false} SomeCut<D(!new)>(less: Order<string>, t: Rows<D>, c: Key) returns (j: nat)
    requires StrictOrder(KeyLess(less)) && Sorted(KeyLess(less), t)
    ensures j <= |t| && CutsAt(less, t, c, j)
  {
    if t == [] {
      j := 0;
    } else if KeyLess(less)(c, t[0].key) {
      j := 0;
    } else {
      var rest := SomeCut(less, t[1..], c);
      j := rest + 1;
      forall i | 0 <= i < |t|
        ensures KeyLess(less)(c, t[i].key) <==> j <= i
      {
        if i > 0 {
          assert t[i] == t[1..][i - 1];
        }
      }
    }
  }

  /** A scan that yields the right rows was cut rightly at every boundary. */
  lemma {:induction false} RightRowsRightCuts<D(!new)>(less: Order<string>, shape: Shape, t: Rows<D>, pk: string,
                                                       b: nat, limit: nat, requests: nat)
    requires StrictOrder(KeyLess(less)) && Sorted(KeyLess(less), t) && limit >= 1 && b <= |t|
    requires ParseKey(shape, pk) == FilterKey(shape, t, b)
    requires Walk(less, shape, t, pk, limit, requests) == Some(t[b..])
    ensures AgreesFrom(less, shape, t, b, limit)
    decreases requests
  {
    hide KeyLess, ParseKey, FormatKey, Select, CutsAt, StrictOrder, Sorted;
    var j := SomeCut(less, t, ParseKey(shape, pk));
    CutPage(less, shape, t, pk, j, limit);
    var page := Select(less, shape, t, pk, limit);
    assert page.0 <= t[b..] && (|page.0| < limit ==> page.0 == t[b..]);
    SameStart(less, t, page.0, b, j, limit);
    if b + limit <= |t| {
      var rest := Walk(less, shape, t, page.1, limit, requests - 1);
      assert t[b..] == t[b..b + limit] + t[b + limit..];
      assert rest.value == t[b..][limit..];
      RightRowsRightCuts(less, shape, t, page.1, b + limit, limit, requests - 1);
    }
  }

  lemma SameStart<D(!new)>(less: Order<string>, t: Rows<D>, page: Rows<D>, b: nat, j: nat, limit: nat)
    requires StrictOrder(KeyLess(less)) && Sorted(KeyLess(less), t) && limit >= 1 && b <= |t| && j <= |t|
    requires page == t[j..Min(j + limit, |t|)] && page <= t[b..] && (|page| < limit ==> page == t[b..])
    ensures j == b
  {
    hide KeyLess, After;
    if j < |t| {
      assert page[0] == t[j] && t[b..][0] == t[b];
    }
  }

  /** A scan that is cut rightly yields the rows in order and ends after |t| / limit + 1 requests, not before. */
  lemma {:induction false} RightCutsRightRows<D(!new)>(less: Order<string>, shape: Shape, t: Rows<D>, pk: string,
                                                       b: nat, limit: nat, requests: nat)
    requires limit >= 1 && b <= |t| && AgreesFrom(less, shape, t, b, limit)
    requires ParseKey(shape, pk) == FilterKey(shape, t, b)
    ensures Walk(less, shape, t, pk, limit, requests)
         == if requests >= ExportPages.Pages(|t| - b, limit) then Some(t[b..]) else None
    decreases requests
  {
    hide KeyLess, ParseKey, FormatKey, Select, CutsAt;
    if requests > 0 {
      CutPage(less, shape, t, pk, b, limit);
      if b + limit <= |t| {
        var next := FormatKey(shape, t[b + limit - 1].key);
        assert AgreesFrom(less, shape, t, b + limit, limit);
        RightCutsRightRows(less, shape, t, next, b + limit, limit, requests - 1);
        assert t[b..] == t[b..b + limit] + t[b + limit..];
        assert |t| - b - limit == |t| - (b + limit);
      } else {
        assert t[b..] == t[b..|t|];
      }
    }
  }

  /** A row's own key cuts a sorted table behind that row. */
  lemma CutsAtARow<D(!new)>(less: Order<string>, t: Rows<D>, c: Key, b: nat)
    requires StrictOrder(KeyLess(less)) && Sorted(KeyLess(less), t) && b <= |t|
    requires if b > 0 then c == t[b - 1].key else t != [] ==> KeyLess(less)(c, t[0].key)
    ensures CutsAt(less, t, c, b)
  {
    hide KeyLess;
  }

  /** Keys that survive the cursor cut rightly, whatever the page size; so does the start, if no row is at or before it. */
  lemma {:induction false} SurvivorsAgree<D(!new)>(less: Order<string>, shape: Shape, t: Rows<D>, b: nat, limit: nat)
    requires StrictOrder(KeyLess(less)) && Sorted(KeyLess(less), t) && limit >= 1 && b <= |t|
    requires forall r | r in t :: HasShape(r.key, shape) && Survives(r.key, shape)
    requires t != [] ==> KeyLess(less)(START, t[0].key)
    ensures AgreesFrom(less, shape, t, b, limit)
    decreases |t| - b
  {
    hide Survives, HasShape, KeyLess, ParseKey, FormatKey;
    if b > 0 {
      KeyRoundTrip(t[b - 1].key, shape);
    }
    CutsAtARow(less, t, FilterKey(shape, t, b), b);
    hide StrictOrder, Sorted, CutsAt;
    if b + limit <= |t| {
      SurvivorsAgree(less, shape, t, b + limit, limit);
    }
  }

  /** Within some number of requests the scan yields the run's rows, each once and in order. */
  ghost predicate YieldsAll<D(!new)>(less: Order<string>, shape: Shape, t: Rows<D>, limit: nat)
    requires limit >= 1
  {
    exists n: nat :: Walk(less, shape, t, "", limit, n) == Some(t)
  }

  /** It does so exactly when the orders agree at its page boundaries; and then in |t| / limit + 1 requests. */
  lemma ScanIsExact<D(!new)>(less: Order<string>, shape: Shape, t: Rows<D>, limit: nat)
    requires StrictOrder(less) && Sorted(KeyLess(less), t) && limit >= 1
    ensures YieldsAll(less, shape, t, limit) <==> AgreesFrom(less, shape, t, 0, limit)
    ensures AgreesFrom(less, shape, t, 0, limit) ==>
              Walk(less, shape, t, "", limit, ExportPages.Pages(|t|, limit)) == Some(t)
  {
    hide KeyLess, Walk, AgreesFrom, ParseKey, FormatKey;
    KeysAreOrdered(less);
    EmptyTextIsTheStart(shape);
    assert t[0..] == t;
    if AgreesFrom(less, shape, t, 0, limit) {
      RightCutsRightRows(less, shape, t, "", 0, limit, ExportPages.Pages(|t|, limit));
    } else if YieldsAll(less, shape, t, limit) {
      var n: nat :| Walk(less, shape, t, "", limit, n) == Some(t);
      RightRowsRightCuts(less, shape, t, "", 0, limit, n);
    }
  }

  // Scans while the world changes.

  /** The rows of all pages, one after the other. */
  function Collected<D>(pages: seq<MartPage<D>>): Rows<D> {
    if pages == [] then [] else pages[0].rows + Collected(pages[1..])
  }

  lemma CollectOne<D>(pages: seq<MartPage<D>>, i: nat)
    requires i < |pages|
    ensures Collected(pages[i..]) == pages[i].rows + Collected(pages[i + 1..])
    ensures i + 1 == |pages| ==> Collected(pages[i..]) == pages[i].rows
  {
    assert pages[i..][1..] == pages[i + 1..];
  }

  /** The rows of the run are the same at every request. */
  ghost predicate Steady<D>(worlds: seq<World<D>>, run: Run, shape: Shape, t: Rows<D>) {
    forall j | 0 <= j < |worlds| :: worlds[j].shape == Some(shape) && RowsOf(worlds[j], run) == t
  }

  /** What an answer tells the walk: its rows, and the key it goes on from. */
  lemma AnswerIsSelected<D(!new)>(less: Order<string>, text: CursorText, w: World<D>, cursor: string, limit: int,
                                  page: MartPage<D>, shape: Shape, t: Rows<D>)
    requires RoundTrips(text) && Answers(less, text, w, cursor, limit, page)
    requires w.shape == Some(shape) && RowsOf(w, page.version.run) == t
    ensures text.read(cursor).Some?
    ensures var selected := Select(less, shape, t, text.read(cursor).value.lastPk, PageLimit(limit));
            && page.rows == selected.0 && (page.next == "" <==> selected.1 == "")
            && (page.next != "" ==> text.read(page.next).Some? && text.read(page.next).value.lastPk == selected.1)
  {
    hide Select;
  }

  /** A scan during which the rows of its run stay as they are, whatever else is committed. */
  ghost predicate IsSteadyScan<D(!new)>(less: Order<string>, text: CursorText, worlds: seq<World<D>>, limit: int,
                                        pages: seq<MartPage<D>>, shape: Shape, t: Rows<D>)
  {
    && RoundTrips(text) && IsScan(less, text, worlds, limit, pages)
    && pages[0].version.run != NIL_RUN && Steady(worlds, pages[0].version.run, shape, t)
  }

  /** The key from which request i goes on. */
  function PkOf<D>(text: CursorText, pages: seq<MartPage<D>>, i: nat): string
    requires i <= |pages|
  {
    match text.read(SentWith(pages, i))
    case Some(c) => c.lastPk
    case None => ""
  }

  lemma SteadyRequest<D(!new)>(less: Order<string>, text: CursorText, worlds: seq<World<D>>, limit: int,
                               pages: seq<MartPage<D>>, shape: Shape, t: Rows<D>, i: nat, n: nat)
    requires IsSteadyScan(less, text, worlds, limit, pages, shape, t) && i < |pages| && n > 0
    ensures i + 1 < |pages| ==> pages[i].next != ""
    ensures Walk(less, shape, t, PkOf(text, pages, i), PageLimit(limit), n)
         == if pages[i].next == "" then Some(pages[i].rows)
            else match Walk(less, shape, t, PkOf(text, pages, i + 1), PageLimit(limit), n - 1)
                 case None => None
                 case Some(rest) => Some(pages[i].rows + rest)
  {
    hide Select, Answers, RoundTrips, PageLimit, RowsOf, Walk;
    ScanIsPinned(less, text, worlds, limit, pages, i);
    AnswerIsSelected(less, text, worlds[i], SentWith(pages, i), limit, pages[i], shape, t);
    WalkOnce(less, shape, t, PkOf(text, pages, i), PageLimit(limit), n);
  }

  /** Such a scan is the walk over those rows. */
  lemma {:induction false} SteadyScan<D(!new)>(less: Order<string>, text: CursorText, worlds: seq<World<D>>,
                                               limit: int, pages: seq<MartPage<D>>, shape: Shape, t: Rows<D>, i: nat)
    requires IsSteadyScan(less, text, worlds, limit, pages, shape, t) && i < |pages|
    ensures Walk(less, shape, t, PkOf(text, pages, i), PageLimit(limit), |pages| - i)
         == if pages[|pages| - 1].next == "" then Some(Collected(pages[i..])) else None
    decreases |pages| - i
  {
    hide IsSteadyScan, Walk, PkOf, PageLimit, Collected;
    SteadyRequest(less, text, worlds, limit, pages, shape, t, i, |pages| - i);
    CollectOne(pages, i);
    if i + 1 == |pages| {
      WalkNowhere(less, shape, t, PkOf(text, pages, i + 1), PageLimit(limit));
    } else {
      SteadyScan(less, text, worlds, limit, pages, shape, t, i + 1);
    }
  }

  /** So a finished scan of steady rows has each of them exactly once and in order if their keys survive the cursor,
      and a scan of them that has made |t| / limit + 1 requests is finished. */
  lemma FinishedScan<D(!new)>(less: Order<string>, text: CursorText, worlds: seq<World<D>>, limit: int,
                              pages: seq<MartPage<D>>, shape: Shape, t: Rows<D>)
    requires IsSteadyScan(less, text, worlds, limit, pages, shape, t)
    requires StrictOrder(less) && Sorted(KeyLess(less), t)
    requires forall r | r in t :: HasShape(r.key, shape) && Survives(r.key, shape)
    requires t != [] ==> KeyLess(less)(START, t[0].key)
    ensures pages[|pages| - 1].next == "" ==> Collected(pages) == t
    ensures pages[|pages| - 1].next == "" <==> |pages| >= |t| / PageLimit(limit) + 1
  {
    hide Survives, HasShape, KeyLess, Answers, PageLimit, Walk, ParseKey, FormatKey;
    KeysAreOrdered(less);
    SurvivorsAgree(less, shape, t, 0, PageLimit(limit));
    EmptyTextIsTheStart(shape);
    RightCutsRightRows(less, shape, t, "", 0, PageLimit(limit), |pages|);
    SteadyScan(less, text, worlds, limit, pages, shape, t, 0);
    assert pages[0..] == pages && t[0..] == t && PkOf(text, pages, 0) == "";
    ExportPages.PagesByDivision(|t|, PageLimit(limit));
  }

  /** A bar in the first of two texts cuts it short, and so sends the cursor back. */
  lemma CutShort(less: Order<string>, a: string, b: string, x: string)
    requires '|' !in a && less(a, a + "|" + b)
    ensures var k := Key(a + "|" + b, x, DAY_ONE);
            KeyLess(less)(ParseKey(TextText, FormatKey(TextText, k)), k)
  {
    assert (a + "|" + b) + "|" + x == a + "|" + (b + "|" + x);
    SplitJoined(a, b + "|" + x);
  }

  /** With one such row and pages of one row, the first page comes again for ever. */
  lemma {:induction false} EndlessScan<D(!new)>(less: Order<string>, a: string, b: string, x: string, data: D, n: nat)
    requires ExportPages.Collation(less) && '|' !in a && less(a, a + "|" + b)
    ensures var k := Key(a + "|" + b, x, DAY_ONE);
            && Walk(less, TextText, [Row(k, data)], "", 1, n) == None
            && Walk(less, TextText, [Row(k, data)], FormatKey(TextText, k), 1, n) == None
  {
    if n > 0 {
      EndlessScan(less, a, b, x, data, n - 1);
      var k := Key(a + "|" + b, x, DAY_ONE);
      var t := [Row(k, data)];
      CutShort(less, a, b, x);
      EmptyTextIsTheStart(TextText);
      assert KeyLess(less)(START, k);
      hide ParseKey, FormatKey, KeyLess, Select, Walk;
      CutPage(less, TextText, t, "", 0, 1);
      CutPage(less, TextText, t, FormatKey(TextText, k), 0, 1);
      WalkOnce(less, TextText, t, "", 1, n);
      WalkOnce(less, TextText, t, FormatKey(TextText, k), 1, n);
    }
  }
}
