/** Reading a mart page by page (data_marts/service/reader_pg.go, repository/marts.go): the cursor pins the ETL run
    with which the scan began. */
module MartReader {
  import opened Basics
  import opened Calendar
  import opened Keyset
  import opened MartCursor
  import opened Text
  import opened VersionCache
  import ExportPages

  /** uuid.Nil: the run of a cursor that has none. */
  const NIL_RUN: Run := 0

  const LIMIT_DEFAULT: int := 1000
  const LIMIT_MAX: int := 10_000

  datatype Cursor = Cursor(run: Run, lastPk: string)

  datatype Fault = NotFound | BadRequest | Unavailable | Internal

  datatype MartPage<+D> = MartPage(rows: seq<Row<Key, D>>, next: string, version: Version)

  /** base64url of the cursor's JSON, and back; the empty text is the start of a scan. */
  datatype CursorText = CursorText(show: Cursor -> string, read: string -> Option<Cursor>)

  ghost predicate RoundTrips(text: CursorText) {
    && text.read("") == Some(Cursor(NIL_RUN, ""))
    && forall c :: text.show(c) != "" && text.read(text.show(c)) == Some(c)
  }

  /** One mart at the time of a request: its shape, the current committed version as the database answers it, the
      rows of every run in key order, and what becomes of the page query. */
  datatype World<D> = World(shape: Option<Shape>, version: Result<Version, Fault>, rows: map<Run, seq<Row<Key, D>>>,
                            failure: Option<Fault>)

  predicate KeyBefore(less: Order<string>, k: Key, l: Key) {
    less(k.first, l.first) ||
    (k.first == l.first && (less(k.second, l.second) || (k.second == l.second && Before(k.date, l.date))))
  }

  /** ORDER BY, and the row comparison of the filter, under the collation of the database. */
  function KeyLess(less: Order<string>): Order<Key> { (k, l) => KeyBefore(less, k, l) }

  /** The first column decides, then the second, then the date. */
  lemma ColumnsDecide(less: Order<string>, k: Key, l: Key)
    requires StrictOrder(less)
    ensures k.first != l.first ==> (KeyLess(less)(k, l) <==> less(k.first, l.first))
    ensures k.first == l.first && k.second != l.second ==> (KeyLess(less)(k, l) <==> less(k.second, l.second))
    ensures k.first == l.first && k.second == l.second ==> (KeyLess(less)(k, l) <==> Before(k.date, l.date))
  {
  }

  lemma KeysAreOrdered(less: Order<string>)
    requires StrictOrder(less)
    ensures StrictOrder(KeyLess(less))
  {
    forall a, b, c | KeyBefore(less, a, b) && KeyBefore(less, b, c)
      ensures KeyBefore(less, a, c)
    {
      if less(a.first, b.first) && less(b.first, c.first) {
        assert less(a.first, c.first);
      } else if a.first == b.first == c.first && less(a.second, b.second) && less(b.second, c.second) {
        assert less(a.second, c.second);
      }
    }
    forall a: Key, b: Key | a != b
      ensures KeyBefore(less, a, b) || KeyBefore(less, b, a)
    {
      if a.first == b.first && a.second == b.second {
        assert a.date != b.date;
      }
    }
  }

  /** A limit that is not positive means 1000 rows, and no page has more than 10000. */
  function PageLimit(limit: int): (n: nat)
    ensures 1 <= n <= 10_000
    ensures limit <= 0 ==> n == 1000
    ensures 1 <= limit <= 10_000 ==> n == limit
    ensures limit > 10_000 ==> n == 10_000
  {
    if limit <= 0 then LIMIT_DEFAULT else Min(limit, LIMIT_MAX)
  }

  function RowsOf<D>(w: World<D>, run: Run): seq<Row<Key, D>> { if run in w.rows then w.rows[run] else [] }

  /** SelectMartRows: the page behind the cursor's key, and the key of its last row if it is full. */
  function Select<D(!new)>(less: Order<string>, shape: Shape, t: seq<Row<Key, D>>, lastPk: string, limit: nat):
    (seq<Row<Key, D>>, string)
    requires limit >= 1
  {
    var page := Page(KeyLess(less), Some(ParseKey(shape, lastPk)), t, limit);
    (page, if |page| < limit then "" else FormatKey(shape, page[|page| - 1].key))
  }

  predicate IsLive(entries: map<string, Entry>, name: string, now: int) {
    name in entries && now <= entries[name].expiresAt
  }

  /** The version a request goes by: the cached one while it lives, else the database's. */
  function VersionSeen(entries: map<string, Entry>, name: string, db: Result<Version, Fault>, now: int):
    Result<Version, Fault>
  {
    if IsLive(entries, name, now) then Ok(entries[name].version) else db
  }

  /** A live entry stays; otherwise the database's version takes its place, or nothing does. */
  ghost function CacheAfter(entries: map<string, Entry>, name: string, db: Result<Version, Fault>, now: int,
                            expiresAt: int): map<string, Entry>
  {
    if name in entries && now <= entries[name].expiresAt then entries
    else if db.Ok? then entries[name := Entry(db.value, expiresAt)]
    else entries - {name}
  }

  class PgReader {
    const cache: Cache

    constructor (ttl: int)
      ensures fresh(cache) && cache.ttl == ttl && cache.entries == map[]
    {
      cache := new Cache(ttl);
    }

    /** The version in the cache, or else the database's, which then goes into the cache. The three times are the
        readings of the clock on the way. */
    method GetVersion(name: string, known: bool, db: Result<Version, Fault>, now: int, later: int, last: int)
      returns (r: Result<Version, Fault>)
      requires now <= later
      modifies cache
      ensures !known ==> r == Err(NotFound) && cache.entries == old(cache.entries)
      ensures known ==>
                && r == VersionSeen(old(cache.entries), name, db, now)
                && cache.entries == if IsLive(old(cache.entries), name, now) then old(cache.entries)
                                    else if db.Ok? then old(cache.entries)[name := Entry(db.value, last + cache.ttl)]
                                    else old(cache.entries) - {name}
    {
      if !known {
        return Err(NotFound);
      }
      var cached := cache.Get(name, now, later);
      if cached.Some? {
        return Ok(cached.value);
      }
      r := db;
      if r.Ok? {
        cache.Put(name, r.value, last);
      }
    }

    /** One page: of the run that the cursor names, or of the current one when it names none. */
    method Read<D(!new)>(less: Order<string>, text: CursorText, name: string, w: World<D>, cursor: string, limit: int,
                         now: int, later: int, last: int)
      returns (r: Result<MartPage<D>, Fault>)
      requires now <= later
      modifies cache
      ensures w.shape.None? ==> r == Err(NotFound)
      ensures w.shape.Some? && text.read(cursor).None? ==> r == Err(BadRequest)
      ensures w.shape.None? || text.read(cursor).None? ==> cache.entries == old(cache.entries)
      ensures w.shape.Some? && text.read(cursor).Some? ==>
                var run, v := text.read(cursor).value.run, VersionSeen(old(cache.entries), name, w.version, now);
                if v.Err? then r == Err(v.error)
                else if w.failure.Some? then
                  && r == Err(w.failure.value)
                  && (w.failure.value != Unavailable && w.failure.value != NotFound ==> name !in cache.entries)
                else
                  && r.Ok? && Answers(less, text, w, cursor, limit, r.value)
                  && r.value.version == (if run == NIL_RUN then v.value else v.value.(run := run))
                  && |r.value.rows| <= (if limit <= 0 then 1000 else if limit <= 10_000 then limit else 10_000)
      // The cache: a fresh version is put there; the entry is dropped when the page query fails for a reason of its own.
      ensures w.shape.Some? && text.read(cursor).Some? ==>
                var seen := CacheAfter(old(cache.entries), name, w.version, now, last + cache.ttl);
                cache.entries ==
                if w.failure.None? || w.failure.value == Unavailable || w.failure.value == NotFound then seen
                else if VersionSeen(old(cache.entries), name, w.version, now).Err? then seen
                else seen - {name}
    {
      if w.shape.None? {
        return Err(NotFound);
      }
      var cur := text.read(cursor);
      if cur.None? {
        return Err(BadRequest);
      }
      var v := GetVersion(name, true, w.version, now, later, last);
      if v.Err? {
        return Err(v.error);
      }
      var version := if cur.value.run != NIL_RUN then v.value.(run := cur.value.run) else v.value;
      if w.failure.Some? {
        if w.failure.value != Unavailable && w.failure.value != NotFound {
          cache.Invalidate(name);
        }
        return Err(w.failure.value);
      }
      var page := Select(less, w.shape.value, RowsOf(w, version.run), cur.value.lastPk, PageLimit(limit));
      var next := if page.1 == "" then "" else text.show(Cursor(version.run, page.1));
      r := Ok(MartPage(page.0, next, version));
    }
  }

  /** What a successful answer says about the world in which it was given. */
  ghost predicate Answers<D(!new)>(less: Order<string>, text: CursorText, w: World<D>, cursor: string, limit: int,
                                   page: MartPage<D>)
  {
    && w.shape.Some? && text.read(cursor).Some?
    && var cur := text.read(cursor).value;
    && (cur.run != NIL_RUN ==> page.version.run == cur.run)
    && var selected := Select(less, w.shape.value, RowsOf(w, page.version.run), cur.lastPk, PageLimit(limit));
    && page.rows == selected.0
    && page.next == if selected.1 == "" then "" else text.show(Cursor(page.version.run, selected.1))
  }

  function SentWith<D>(pages: seq<MartPage<D>>, i: nat): string
    requires i <= |pages|
  {
    if i == 0 then "" else pages[i - 1].next
  }

  /** A client's scan: it starts without a cursor and hands back the one it got, while the world changes under it. */
  ghost predicate IsScan<D(!new)>(less: Order<string>, text: CursorText, worlds: seq<World<D>>, limit: int,
                                  pages: seq<MartPage<D>>)
  {
    && |pages| == |worlds| && pages != []
    && (forall i | 0 <= i < |pages| ::
          Answers(less, text, worlds[i], SentWith(pages, i), limit, pages[i]))
    && (forall i | 0 <= i < |pages| - 1 :: pages[i].next != "")
  }

  /** An answer has rows of its run, of the run that its cursor names, and a cursor that names it again. */
  lemma AnswerKeepsRun<D(!new)>(less: Order<string>, text: CursorText, w: World<D>, cursor: string, limit: int,
                                page: MartPage<D>)
    requires RoundTrips(text) && Answers(less, text, w, cursor, limit, page)
    ensures forall row | row in page.rows :: row in RowsOf(w, page.version.run)
    ensures forall c | cursor == text.show(c) && c.run != NIL_RUN :: page.version.run == c.run
    ensures page.next != "" ==> exists k :: page.next == text.show(Cursor(page.version.run, k))
  {}

  /** However many runs commit meanwhile, every page reports the run of the first one and has rows of that run only. */
  lemma {:induction false} ScanIsPinned<D(!new)>(less: Order<string>, text: CursorText, worlds: seq<World<D>>,
                                                 limit: int, pages: seq<MartPage<D>>, i: nat)
    requires RoundTrips(text) && IsScan(less, text, worlds, limit, pages) && i < |pages|
    requires pages[0].version.run != NIL_RUN
    ensures pages[i].version.run == pages[0].version.run
    ensures forall row | row in pages[i].rows :: row in RowsOf(worlds[i], pages[0].version.run)
  {
    hide Answers, RoundTrips;
    AnswerKeepsRun(less, text, worlds[i], SentWith(pages, i), limit, pages[i]);
    if i > 0 {
      ScanIsPinned(less, text, worlds, limit, pages, i - 1);
      AnswerKeepsRun(less, text, worlds[i - 1], SentWith(pages, i - 1), limit, pages[i - 1]);
    }
  }
}
