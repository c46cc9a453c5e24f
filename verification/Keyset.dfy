/** Keyset pagination: the page query of the mock ERP (routes/entities.py, pagination.py) and the client that
    walks it (loader/http_source_reader.go). A table is the list of the rows that the other filters let through, in key
    order; which order that is, the collation of the database decides. */
module Keyset {
  import opened Basics
  import Retry

  datatype Row<+K, +D> = Row(key: K, data: D)

  /** str() of a key in base64 and back. Only the empty text key is written as the empty cursor. */
  datatype Codec<!K> = Codec(show: K -> string, read: string -> Option<K>)

  type Order<!K> = (K, K) -> bool

  const DEFAULT_LIMIT: int := 10_000
  const MAX_LIMIT: int := 50_000

  ghost predicate StrictOrder<K(!new)>(before: Order<K>) {
    && (forall a :: !before(a, a))
    && (forall a, b, c | before(a, b) && before(b, c) :: before(a, c))
    && (forall a, b | a != b :: before(a, b) || before(b, a))
  }

  ghost predicate Faithful<K(!new)>(codec: Codec<K>, before: Order<K>) {
    && (forall k | codec.show(k) != "" :: codec.read(codec.show(k)) == Some(k))
    && (forall k, x | codec.show(k) == "" :: !before(x, k))
  }

  ghost predicate Sorted<K(!new), D(!new)>(before: Order<K>, t: seq<Row<K, D>>) {
    forall i, j | 0 <= i < j < |t| :: before(t[i].key, t[j].key)
  }

  ghost function Keys<K, D>(t: seq<Row<K, D>>): set<K> { set r | r in t :: r.key }

  /** WHERE key > cursor. */
  function After<K(!new), D(!new)>(before: Order<K>, c: Option<K>, t: seq<Row<K, D>>): (rest: seq<Row<K, D>>)
    ensures forall r :: r in rest <==> r in t && (c.Some? ==> before(c.value, r.key))
  {
    if c.None? || t == [] then t
    else if before(c.value, t[0].key) then [t[0]] + After(before, c, t[1..])
    else After(before, c, t[1..])
  }

  function Take<T>(s: seq<T>, n: nat): seq<T> { if |s| <= n then s else s[..n] }

  /** A limit that is not positive means 10000 rows, and no page has more than 50000. */
  function ClampLimit(limit: int): (n: nat)
    ensures 1 <= n <= 50_000
    ensures limit <= 0 ==> n == 10_000
    ensures 1 <= limit <= 50_000 ==> n == limit
    ensures limit > 50_000 ==> n == 50_000
  {
    if limit <= 0 then DEFAULT_LIMIT else Min(limit, MAX_LIMIT)
  }

  /** The page query and the cursor that goes with it: only a full page has a successor. */
  function Page<K(!new), D(!new)>(before: Order<K>, c: Option<K>, t: seq<Row<K, D>>, limit: nat): seq<Row<K, D>> {
    Take(After(before, c, t), limit)
  }

  function NextCursor<K, D>(codec: Codec<K>, page: seq<Row<K, D>>, limit: nat): string {
    if |page| == limit && page != [] then codec.show(page[|page| - 1].key) else ""
  }

  function Decode<K>(codec: Codec<K>, cursor: string): Option<K> {
    if cursor == "" then None else codec.read(cursor)
  }

  /** Rows after a key of a sorted table: a sorted table again, and no longer. */
  lemma {:induction false} AfterIsSorted<K(!new), D(!new)>(before: Order<K>, c: Option<K>, t: seq<Row<K, D>>)
    requires StrictOrder(before) && Sorted(before, t)
    ensures Sorted(before, After(before, c, t)) && |After(before, c, t)| <= |t|
  {
    if c.Some? && t != [] {
      AfterIsSorted(before, c, t[1..]);
    }
  }

  /** In a sorted table, what comes after one of its keys is the rest of the table. */
  lemma {:induction false} AfterARow<K(!new), D(!new)>(before: Order<K>, t: seq<Row<K, D>>, i: nat)
    requires StrictOrder(before) && Sorted(before, t) && i < |t|
    ensures After(before, Some(t[i].key), t) == t[i + 1..]
  {
    if i == 0 {
      AllAfter(before, t[0].key, t[1..]);
    } else {
      assert !before(t[i].key, t[0].key);
      AfterARow(before, t[1..], i - 1);
    }
  }

  lemma {:induction false} AllAfter<K(!new), D(!new)>(before: Order<K>, k: K, t: seq<Row<K, D>>)
    requires forall r | r in t :: before(k, r.key)
    ensures After(before, Some(k), t) == t
  {
    if t != [] {
      AllAfter(before, k, t[1..]);
    }
  }

  /** A filter that lets exactly a suffix through returns that suffix. */
  lemma {:induction false} AfterIsSuffix<K(!new), D(!new)>(before: Order<K>, c: K, t: seq<Row<K, D>>, b: nat)
    requires b <= |t| && forall i | 0 <= i < |t| :: before(c, t[i].key) <==> b <= i
    ensures After(before, Some(c), t) == t[b..]
  {
    if t != [] {
      var rest := t[1..];
      assert forall i | 0 <= i < |rest| :: rest[i] == t[i + 1];
      AfterIsSuffix(before, c, rest, if b == 0 then 0 else b - 1);
    }
  }

  /** Then the page is the slice behind the cut. */
  lemma PageIsSlice<K(!new), D(!new)>(before: Order<K>, c: K, t: seq<Row<K, D>>, b: nat, limit: nat)
    requires b <= |t| && forall i | 0 <= i < |t| :: before(c, t[i].key) <==> b <= i
    ensures Page(before, Some(c), t, limit) == t[b..Min(b + limit, |t|)]
  {
    AfterIsSuffix(before, c, t, b);
    hide After;
    assert Take(t[b..], limit) == t[b..Min(b + limit, |t|)];
  }

  /** Moving the cursor forward leaves strictly fewer rows. */
  lemma {:induction false} FewerRemain<K(!new), D(!new)>(before: Order<K>, c: Option<K>, k: K, t: seq<Row<K, D>>)
    requires StrictOrder(before) && (c.Some? ==> before(c.value, k))
    ensures |After(before, Some(k), t)| <= |After(before, c, t)|
    ensures k in Keys(t) ==> |After(before, Some(k), t)| < |After(before, c, t)|
  {
    if t != [] {
      FewerRemain(before, c, k, t[1..]);
    }
  }

  /** The table as request i sees it: the states follow one another and the last one stays. */
  function TableAt<K, D>(tables: seq<seq<Row<K, D>>>, i: nat): seq<Row<K, D>>
    requires tables != []
  {
    tables[Min(i, |tables| - 1)]
  }

  /** The key is in the table at each of the first n requests. */
  ghost predicate Steady<K, D>(tables: seq<seq<Row<K, D>>>, k: K, n: nat)
    requires tables != []
  {
    forall i: nat | i < n :: k in Keys(TableAt(tables, i))
  }

  ghost predicate Seen<K, D>(tables: seq<seq<Row<K, D>>>, r: Row<K, D>, n: nat)
    requires tables != []
  {
    exists i: nat | i < n :: r in TableAt(tables, i)
  }

  /** No page can end in the empty key: on pages of two or more it would have to sort before itself. */
  ghost predicate KeysEncode<K, D>(codec: Codec<K>, tables: seq<seq<Row<K, D>>>, limit: nat) {
    limit >= 2 || forall t, r | t in tables && r in t :: codec.show(r.key) != ""
  }

  /** Where the client stands after n requests: `cursor` is empty or belongs to the last row it has. */
  ghost predicate Walked<K(!new), D(!new)>(before: Order<K>, codec: Codec<K>, tables: seq<seq<Row<K, D>>>,
                                           all: seq<Row<K, D>>, cursor: string, n: nat)
    requires tables != []
  {
    && Sorted(before, all)
    && (forall r | r in all :: Seen(tables, r, n))
    && (cursor != "" ==> all != [] && codec.show(all[|all| - 1].key) == cursor)
  }

  ghost predicate Covered<K(!new), D(!new)>(before: Order<K>, tables: seq<seq<Row<K, D>>>,
                                            all: seq<Row<K, D>>, more: bool, n: nat)
    requires tables != [] && (more ==> all != [])
  {
    forall k | Steady(tables, k, n) :: k in Keys(all) || (more && before(all[|all| - 1].key, k))
  }

  /** One more page keeps the rows in order, takes them from the table, and moves the cursor to the last of them. */
  lemma OnePage<K(!new), D(!new)>(before: Order<K>, codec: Codec<K>, tables: seq<seq<Row<K, D>>>,
                                  all: seq<Row<K, D>>, cursor: string, n: nat, limit: nat)
    requires StrictOrder(before) && Faithful(codec, before)
    requires tables != [] && Sorted(before, TableAt(tables, n))
    requires Walked(before, codec, tables, all, cursor, n) && (all == [] || cursor != "")
    ensures var page := Page(before, Decode(codec, cursor), TableAt(tables, n), limit);
            Walked(before, codec, tables, all + page, NextCursor(codec, page, limit), n + 1)
  {
    var t, c := TableAt(tables, n), Decode(codec, cursor);
    var page := Page(before, c, t, limit);
    AfterIsSorted(before, c, t);
    forall r | r in page
      ensures Seen(tables, r, n + 1)
    {
      assert r in TableAt(tables, n);
    }
    forall i, j | 0 <= i < j < |all + page|
      ensures before((all + page)[i].key, (all + page)[j].key)
    {
      if i < |all| <= j {
        assert before(all[|all| - 1].key, page[j - |all|].key);
      }
    }
  }

  lemma NoCursor<K(!new)>(codec: Codec<K>)
    ensures Decode(codec, "") == None
  {}

  lemma CursorIsLastKey<K(!new), D(!new)>(before: Order<K>, codec: Codec<K>, tables: seq<seq<Row<K, D>>>,
                                          all: seq<Row<K, D>>, cursor: string, n: nat)
    requires Faithful(codec, before) && tables != [] && Walked(before, codec, tables, all, cursor, n) && cursor != ""
    ensures all != [] && Decode(codec, cursor) == Some(all[|all| - 1].key)
  {}

  lemma FullPageEncodes<K(!new), D(!new)>(before: Order<K>, codec: Codec<K>, tables: seq<seq<Row<K, D>>>,
                                          c: Option<K>, n: nat, limit: nat)
    requires StrictOrder(before) && Faithful(codec, before) && limit >= 1
    requires tables != [] && Sorted(before, TableAt(tables, n)) && KeysEncode(codec, tables, limit)
    requires |Page(before, c, TableAt(tables, n), limit)| == limit
    ensures codec.show(Page(before, c, TableAt(tables, n), limit)[limit - 1].key) != ""
  {
    var t, page := TableAt(tables, n), Page(before, c, TableAt(tables, n), limit);
    AfterIsSorted(before, c, t);
    assert page[limit - 1] in t;
    if limit >= 2 {
      OnlyTheFirst(before, codec, page, limit - 1);
    }
  }

  /** What a page leaves out comes behind its last row. */
  lemma PageBeforeRest<K(!new), D(!new)>(before: Order<K>, c: Option<K>, t: seq<Row<K, D>>, limit: nat)
    requires StrictOrder(before) && Sorted(before, t) && 1 <= limit < |After(before, c, t)|
    ensures var rest := After(before, c, t);
            forall j | limit <= j < |rest| :: before(rest[limit - 1].key, rest[j].key)
  {
    AfterIsSorted(before, c, t);
  }

  /** One more page accounts for every key that was there at each request, up to the new cursor; and without
      a new cursor nothing is left. */
  lemma CoverOnePage<K(!new), D(!new)>(before: Order<K>, codec: Codec<K>, tables: seq<seq<Row<K, D>>>,
                                       all: seq<Row<K, D>>, cursor: string, n: nat, limit: nat)
    requires StrictOrder(before) && Faithful(codec, before) && limit >= 1
    requires tables != [] && Sorted(before, TableAt(tables, n)) && KeysEncode(codec, tables, limit)
    requires Walked(before, codec, tables, all, cursor, n) && (all == [] || cursor != "") && (n == 0 ==> all == [])
    requires n > 0 ==> Covered(before, tables, all, cursor != "", n)
    ensures var page := Page(before, Decode(codec, cursor), TableAt(tables, n), limit);
            var next := NextCursor(codec, page, limit);
            (next != "" ==> all + page != []) && Covered(before, tables, all + page, next != "", n + 1)
  {
    hide Walked, Decode, Faithful, StrictOrder, After, KeysEncode, Sorted;
    var t, c := TableAt(tables, n), Decode(codec, cursor);
    var rest, page := After(before, c, t), Page(before, c, t, limit);
    var next := NextCursor(codec, page, limit);
    if cursor != "" {
      CursorIsLastKey(before, codec, tables, all, cursor, n);
    } else {
      assert c.None? by {
        NoCursor(codec);
      }
    }
    if |page| == limit {
      FullPageEncodes(before, codec, tables, c, n, limit);
    }
    if limit < |rest| {
      PageBeforeRest(before, c, t, limit);
    }
    forall k | Steady(tables, k, n + 1)
      ensures k in Keys(all + page) || (next != "" && before((all + page)[|all + page| - 1].key, k))
    {
      assert k in Keys(t);
      var r :| r in t && r.key == k;
      if n > 0 && k in Keys(all) {
        var x :| x in all && x.key == k;
        assert x in all + page;
      } else {
        assert r in rest;
        var j :| 0 <= j < |rest| && rest[j] == r;
        if j < |page| {
          assert page[j] in all + page;
        }
      }
    }
  }

  lemma ProductsKeepOrder(limit: nat, a: nat, b: nat)
    requires a <= b
    ensures a * limit <= b * limit
  {}

  lemma QuotientIs(n: nat, limit: nat, i: nat)
    requires i * limit <= n < i * limit + limit
    ensures n / limit == i
  {
    var q := n / limit;
    assert q * limit <= n < q * limit + limit;
    ProductsKeepOrder(limit, Min(q, i) + 1, Max(q, i) + if q == i then 1 else 0);
  }

  /** What a walk over the fixed table t has when it goes on behind its first `from` rows. */
  ghost predicate Slice<K(!new), D(!new)>(codec: Codec<K>, t: seq<Row<K, D>>, all: seq<Row<K, D>>, cursor: string,
                                          from: nat, limit: nat)
  {
    && from <= |t| && all == t[..from]
    && if from == 0 then cursor == ""
       else cursor != "" && codec.show(all[|all| - 1].key) == cursor && (limit == 1 ==> codec.show(t[0].key) != "")
  }

  /** What it has when the page that starts there is the last one. */
  ghost predicate Stopped<K(!new), D(!new)>(codec: Codec<K>, t: seq<Row<K, D>>, all: seq<Row<K, D>>,
                                            from: nat, limit: nat)
  {
    if limit == 1 && t != [] && codec.show(t[0].key) == "" then all == t[..1]
    else all == t && from <= |t| < from + limit
  }

  /** The page behind the first `from` rows. */
  lemma PageFrom<K(!new), D(!new)>(before: Order<K>, t: seq<Row<K, D>>, from: nat, limit: nat)
    requires StrictOrder(before) && Sorted(before, t) && from <= |t|
    ensures var page := Page(before, if from == 0 then None else Some(t[from - 1].key), t, limit);
            && t[..from] + page == t[..Min(from + limit, |t|)]
            && |page| == Min(limit, |t| - from)
            && (page != [] ==> page[|page| - 1] == t[from + |page| - 1])
  {
    var c := if from == 0 then None else Some(t[from - 1].key);
    assert After(before, c, t) == t[from..] by {
      if from > 0 {
        AfterARow(before, t, from - 1);
      }
    }
    hide After, StrictOrder, Sorted;
    assert Page(before, c, t, limit) == t[from..Min(from + limit, |t|)];
  }

  /** In a sorted table only the first key can be the empty one. */
  lemma OnlyTheFirst<K(!new), D(!new)>(before: Order<K>, codec: Codec<K>, t: seq<Row<K, D>>, i: nat)
    requires Faithful(codec, before) && Sorted(before, t) && 0 < i < |t|
    ensures codec.show(t[i].key) != ""
  {
    assert before(t[0].key, t[i].key);
  }

  lemma DecodeShown<K(!new)>(before: Order<K>, codec: Codec<K>, k: K)
    requires Faithful(codec, before) && codec.show(k) != ""
    ensures Decode(codec, codec.show(k)) == Some(k)
  {}

  /** On a fixed table the pages are consecutive slices; the walk stops behind the last row, or behind the
      empty key. */
  lemma OneFixedPage<K(!new), D(!new)>(before: Order<K>, codec: Codec<K>, t: seq<Row<K, D>>,
                                       all: seq<Row<K, D>>, cursor: string, from: nat, limit: nat)
    requires StrictOrder(before) && Faithful(codec, before) && limit >= 1 && Sorted(before, t)
    requires Slice(codec, t, all, cursor, from, limit)
    ensures var page := Page(before, Decode(codec, cursor), t, limit);
            var next := NextCursor(codec, page, limit);
            if next != "" then Slice(codec, t, all + page, next, from + limit, limit)
            else Stopped(codec, t, all + page, from, limit)
  {
    hide Page, StrictOrder, Faithful, Sorted;
    var page := Page(before, Decode(codec, cursor), t, limit);
    if from > 0 {
      DecodeShown(before, codec, t[from - 1].key);
    }
    PageFrom(before, t, from, limit);
    if 1 < from + limit <= |t| {
      OnlyTheFirst(before, codec, t, from + limit - 1);
    }
    hide Decode;
    assert all + page == t[..Min(from + limit, |t|)];
  }

  /** The rows beyond the cursor are the measure of the walk. */
  lemma FewerRows<K(!new), D(!new)>(before: Order<K>, codec: Codec<K>, cursor: string, t: seq<Row<K, D>>, limit: nat)
    requires StrictOrder(before) && Faithful(codec, before)
    requires NextCursor(codec, Page(before, Decode(codec, cursor), t, limit), limit) != ""
    ensures var next := NextCursor(codec, Page(before, Decode(codec, cursor), t, limit), limit);
            |After(before, Decode(codec, next), t)| < |After(before, Decode(codec, cursor), t)|
  {
    var page := Page(before, Decode(codec, cursor), t, limit);
    var last := page[|page| - 1];
    assert last in After(before, Decode(codec, cursor), t);
    FewerRemain(before, Decode(codec, cursor), last.key, t);
  }

  lemma Finished<K(!new), D(!new)>(before: Order<K>, codec: Codec<K>, tables: seq<seq<Row<K, D>>>,
                                   all: seq<Row<K, D>>, n: nat, limit: nat)
    requires tables != [] && Walked(before, codec, tables, all, "", n)
    requires KeysEncode(codec, tables, limit) ==> Covered(before, tables, all, false, n)
    requires n >= 1 && limit >= 1 && (|tables| == 1 ==> Stopped(codec, tables[0], all, (n - 1) * limit, limit))
    ensures Done(before, codec, tables, all, n, limit)
  {
    if |tables| == 1 && (limit > 1 || tables[0] == [] || codec.show(tables[0][0].key) != "") {
      QuotientIs(|tables[0]|, limit, n - 1);
    }
    if |tables| == 1 && tables[0] != [] {
      assert tables[0] in tables && tables[0][0] in tables[0];
    }
  }

  /** The invariant of the walk, at a moment when it goes on. */
  ghost predicate Going<K(!new), D(!new)>(before: Order<K>, codec: Codec<K>, tables: seq<seq<Row<K, D>>>,
                                          all: seq<Row<K, D>>, cursor: string, n: nat, limit: nat)
    requires tables != []
  {
    && Walked(before, codec, tables, all, cursor, n)
    && (if n == 0 then cursor == "" && all == [] else cursor != "")
    && (n > 0 && KeysEncode(codec, tables, limit) ==> Covered(before, tables, all, true, n))
    && (|tables| == 1 ==> Slice(codec, tables[0], all, cursor, n * limit, limit))
  }

  ghost predicate Done<K(!new), D(!new)>(before: Order<K>, codec: Codec<K>, tables: seq<seq<Row<K, D>>>,
                                         all: seq<Row<K, D>>, n: nat, limit: nat)
    requires tables != [] && limit >= 1
  {
    && Sorted(before, all) && (forall x | x in all :: Seen(tables, x, n))
    && (KeysEncode(codec, tables, limit) ==> forall k | Steady(tables, k, n) :: k in Keys(all))
    && (KeysEncode(codec, tables, limit) && |tables| == 1 ==> all == tables[0] && n == |tables[0]| / limit + 1)
    && (|tables| == 1 ==>
          (all == tables[0] <==> !(limit == 1 && |tables[0]| > 1 && codec.show(tables[0][0].key) == "")))
  }

  ghost function RowsLeft<K(!new), D(!new)>(before: Order<K>, codec: Codec<K>, tables: seq<seq<Row<K, D>>>,
                                            cursor: string): nat
    requires tables != []
  {
    |After(before, Decode(codec, cursor), tables[|tables| - 1])|
  }

  /** One request: the walk goes on with fewer rows left in the last state, or it is done. */
  lemma Advance<K(!new), D(!new)>(before: Order<K>, codec: Codec<K>, tables: seq<seq<Row<K, D>>>,
                                  all: seq<Row<K, D>>, cursor: string, n: nat, limit: nat)
    requires StrictOrder(before) && Faithful(codec, before) && limit >= 1
    requires tables != [] && Sorted(before, TableAt(tables, n))
    requires Going(before, codec, tables, all, cursor, n, limit)
    ensures var page := Page(before, Decode(codec, cursor), TableAt(tables, n), limit);
            var next := NextCursor(codec, page, limit);
            if next == "" then Done(before, codec, tables, all + page, n + 1, limit)
            else && Going(before, codec, tables, all + page, next, n + 1, limit)
                 && (n >= |tables| ==> RowsLeft(before, codec, tables, next) < RowsLeft(before, codec, tables, cursor))
  {
    hide Page, NextCursor, After, Walked, Covered, KeysEncode, Sorted, StrictOrder, Faithful, Decode, Steady, Seen,
      Slice, Stopped;
    var t := TableAt(tables, n);
    var page := Page(before, Decode(codec, cursor), t, limit);
    var next := NextCursor(codec, page, limit);
    OnePage(before, codec, tables, all, cursor, n, limit);
    if KeysEncode(codec, tables, limit) {
      CoverOnePage(before, codec, tables, all, cursor, n, limit);
    }
    if |tables| == 1 {
      OneFixedPage(before, codec, t, all, cursor, n * limit, limit);
      assert (n + 1) * limit == n * limit + limit;
    }
    if next == "" {
      Finished(before, codec, tables, all + page, n + 1, limit);
    } else if n >= |tables| {
      FewerRows(before, codec, cursor, t, limit);
    }
  }

  /** fetchAll: page after page until a page comes without a successor. `fails` says what became of request i
      and `requests` counts them. */
  method FetchAll<K(!new), D(!new)>(before: Order<K>, codec: Codec<K>, tables: seq<seq<Row<K, D>>>, requestLimit: int,
                                    fails: nat -> Option<Retry.Fault>)
    returns (r: Result<seq<Row<K, D>>, Retry.Fault>, requests: nat)
    requires StrictOrder(before) && Faithful(codec, before)
    requires tables != [] && forall t | t in tables :: Sorted(before, t)
    ensures requests >= 1 && forall i: nat | i < requests - 1 :: fails(i).None?
    ensures match fails(requests - 1) case Some(f) => r == Err(f) case None => r.Ok?
    ensures r.Ok? ==> Sorted(before, r.value) && forall x | x in r.value :: Seen(tables, x, requests)
    ensures r.Ok? && KeysEncode(codec, tables, ClampLimit(requestLimit)) ==>
              forall k | Steady(tables, k, requests) :: k in Keys(r.value)
    ensures r.Ok? && |tables| == 1 && KeysEncode(codec, tables, ClampLimit(requestLimit)) ==>
              r.value == tables[0] && requests == |tables[0]| / ClampLimit(requestLimit) + 1
    ensures r.Ok? && |tables| == 1 ==>
              (r.value == tables[0] <==>
               !(ClampLimit(requestLimit) == 1 && |tables[0]| > 1 && codec.show(tables[0][0].key) == ""))
  {
    var limit := ClampLimit(requestLimit);
    var cursor, all := "", [];
    requests := 0;
    while true
      invariant Going(before, codec, tables, all, cursor, requests, limit)
      invariant forall i: nat | i < requests :: fails(i).None?
      decreases Max(|tables| - requests, 0), RowsLeft(before, codec, tables, cursor)
    {
      hide Page, NextCursor, Going, RowsLeft, StrictOrder, Faithful, Sorted, Steady, Seen;
      var page := Page(before, Decode(codec, cursor), TableAt(tables, requests), limit);
      Advance(before, codec, tables, all, cursor, requests, limit);
      requests := requests + 1;
      if fails(requests - 1).Some? {
        return Err(fails(requests - 1).value), requests;
      }
      all := all + page;
      if NextCursor(codec, page, limit) == "" {
        return Ok(all), requests;
      }
      cursor := NextCursor(codec, page, limit);
    }
  }

  /** Strictly increasing keys: no row comes twice. */
  lemma SortedHasNoDuplicates<K(!new), D(!new)>(before: Order<K>, t: seq<Row<K, D>>)
    requires StrictOrder(before) && Sorted(before, t)
    ensures NoDuplicates(t)
  {}

  /** A row that nobody touched during the walk is returned as it is. */
  lemma UntouchedRowIsReturned<K(!new), D(!new)>(before: Order<K>, tables: seq<seq<Row<K, D>>>,
                                                 all: seq<Row<K, D>>, row: Row<K, D>, n: nat)
    requires StrictOrder(before) && tables != [] && forall t | t in tables :: Sorted(before, t)
    requires forall x | x in all :: Seen(tables, x, n)
    requires forall k | Steady(tables, k, n) :: k in Keys(all)
    requires forall i: nat | i < n :: row in TableAt(tables, i)
    ensures row in all
  {
    assert Steady(tables, row.key, n);
    var x :| x in all && x.key == row.key;
    var i: nat :| i < n && x in TableAt(tables, i);
    assert Sorted(before, TableAt(tables, i));
  }
}
