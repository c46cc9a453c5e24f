/** The lazy reader that joins the pages of an export into one stream (extractor/entities.go), the loop that reads
    it to its end (service/staging.go), and the two of them against the export API. */
module PagedReader {
  import opened Basics
  import opened Keyset
  import opened ExportPages

  const PAGE_CAP: int := 100_000

  datatype Line<+T> = Blank | Good(value: T) | Bad

  /** The rest of a response body; when it is broken, reading fails behind its last line. */
  datatype Body<+T> = Body(lines: seq<Line<T>>, broken: bool)

  datatype Request = Request(cursor: string, ifNoneMatch: string)

  /** What the HTTP client returns for a request; Failed covers everything it gives up on. */
  datatype Answer<+T> = Failed | Status(code: int, etag: string, next: string, body: Body<T>)

  datatype Opened<+T> = Opened(body: Body<T>, etag: string, next: string)

  datatype End = Eof | BadLine | BrokenBody | FetchFailed | TooManyPages

  datatype Read<+T> = Got(value: T) | Over(end: End)

  datatype Stream<+T> = Stream(rows: seq<T>, end: End)

  /** The server's answer to request i of this stream. */
  type Server<!T> = (nat, Request) -> Answer<T>

  /** fetchPage: 304, 404 and 501 make an empty page without a successor. */
  function FetchPage<T>(a: Answer<T>, ifNoneMatch: string): Option<Opened<T>> {
    match a
    case Failed => None
    case Status(code, etag, next, body) =>
      if code == 200 then Some(Opened(body, etag, next))
      else if code == 304 then Some(Opened(Body([], false), ifNoneMatch, ""))
      else if code == 404 || code == 501 then Some(Opened(Body([], false), "", ""))
      else None
  }

  function SkipBlanks<T>(lines: seq<Line<T>>): (rest: seq<Line<T>>)
    ensures |rest| <= |lines| && (rest != [] ==> !rest[0].Blank?)
  {
    if lines != [] && lines[0].Blank? then SkipBlanks(lines[1..]) else lines
  }

  /** What a reader still has to give when it has opened i pages: the rows before the first result that is not a row,
      and that result. */
  function Drain<T>(server: Server<T>, i: nat, cursor: string, body: Body<T>): Stream<T>
    decreases Max(PAGE_CAP - i, 0), |body.lines|
  {
    var lines := SkipBlanks(body.lines);
    if lines != [] then
      if lines[0].Bad? then Stream([], BadLine)
      else
        var rest := Drain(server, i, cursor, Body(lines[1..], body.broken));
        Stream([lines[0].value] + rest.rows, rest.end)
    else if body.broken then Stream([], BrokenBody)
    else if cursor == "" then Stream([], Eof)
    else if i >= PAGE_CAP then Stream([], TooManyPages)
    else
      match FetchPage(server(i, Request(cursor, "")), "")
      case None => Stream([], FetchFailed)
      case Some(page) => Drain(server, i + 1, page.next, page.body)
  }

  /** ndjsonReader.Next: the next line that is not empty. */
  method ReadLine<T>(body: Body<T>) returns (r: Read<T>, rest: Body<T>)
    ensures var lines := SkipBlanks(body.lines);
            if lines == [] then rest == Body([], body.broken) && r == Over(if body.broken then BrokenBody else Eof)
            else && rest == Body(lines[1..], body.broken)
                 && r == match lines[0] case Good(v) => Got(v) case Blank => Over(BadLine) case Bad => Over(BadLine)
  {
    rest := body;
    while rest.lines != []
      invariant rest.broken == body.broken && SkipBlanks(rest.lines) == SkipBlanks(body.lines)
      decreases |rest.lines|
    {
      var line := rest.lines[0];
      rest := Body(rest.lines[1..], rest.broken);
      match line {
        case Blank =>
        case Good(v) => return Got(v), rest;
        case Bad => return Over(BadLine), rest;
      }
    }
    r := Over(if body.broken then BrokenBody else Eof);
  }

  class Reader<T> {
    const server: Server<T>
    var ifNoneTag: string
    var page: Option<Body<T>>
    var etag: string
    var cursor: string
    var exhausted: bool
    var pages: nat
    /** Every request sent so far. */
    ghost var sent: seq<Request>

    ghost predicate Valid()
      reads this
    {
      && 1 <= pages <= |sent| && pages <= PAGE_CAP && ifNoneTag == "" && exhausted == (cursor == "")
      && (page.Some? ==> |sent| == pages)
      && OnlyFirstConditional(sent)
    }

    ghost function Rest(): Stream<T>
      requires Valid()
      reads this
    {
      if page.None? then Stream([], Eof) else Drain(server, pages, cursor, page.value)
    }

    constructor (server: Server<T>, etag: string)
      ensures this.server == server && ifNoneTag == etag && this.etag == "" && page == None && cursor == ""
      ensures pages == 0 && !exhausted && sent == []
    {
      this.server, this.ifNoneTag, this.etag, this.page, this.cursor := server, etag, "", None, "";
      this.pages, this.exhausted, this.sent := 0, false, [];
    }

    /** openNextPage: the page before is gone even when the next one cannot be had. */
    method OpenNextPage() returns (end: Option<End>)
      requires pages == |sent|
      modifies this
      ensures ifNoneTag == (if end.None? then "" else old(ifNoneTag))
      ensures old(pages) >= PAGE_CAP ==> end == Some(TooManyPages) && sent == old(sent)
      ensures old(pages) < PAGE_CAP ==> sent == old(sent) + [Request(old(cursor), old(ifNoneTag))]
      ensures old(pages) < PAGE_CAP ==>
                match FetchPage(server(old(pages), Request(old(cursor), old(ifNoneTag))), old(ifNoneTag))
                case None => end == Some(FetchFailed)
                case Some(p) =>
                  && end == None && page == Some(p.body) && cursor == p.next && pages == old(pages) + 1
                  && exhausted == (old(exhausted) || p.next == "")
                  && etag == if old(etag) == "" then p.etag else old(etag)
      ensures end.Some? ==> page == None && pages == old(pages) && cursor == old(cursor) && exhausted == old(exhausted)
    {
      page := None;
      if pages >= PAGE_CAP {
        return Some(TooManyPages);
      }
      var answer := server(pages, Request(cursor, ifNoneTag));
      sent := sent + [Request(cursor, ifNoneTag)];
      var fetched := FetchPage(answer, ifNoneTag);
      if fetched.None? {
        return Some(FetchFailed);
      }
      pages := pages + 1;
      page := Some(fetched.value.body);
      if etag == "" {
        etag := fetched.value.etag;
      }
      ifNoneTag := "";
      cursor := fetched.value.next;
      if cursor == "" {
        exhausted := true;
      }
      end := None;
    }

    /** The next row, from as many pages as it takes. Once a page could not be opened, the reader is at its end;
        behind a bad line it goes on. */
    method Next() returns (r: Read<T>)
      requires Valid()
      modifies this
      ensures Valid() && old(sent) <= sent
      ensures var before := old(Rest());
              if before.rows != [] then r == Got(before.rows[0]) && Rest() == Stream(before.rows[1..], before.end)
              else && r == Over(before.end)
                   && (before.end != BadLine ==>
                         Rest() == Stream([], if before.end == BrokenBody then BrokenBody else Eof))
    {
      while true
        invariant Valid() && old(sent) <= sent && Rest() == old(Rest())
        decreases PAGE_CAP - pages
      {
        if page.None? {
          return Over(Eof);
        }
        var rest;
        r, rest := ReadLine(page.value);
        page := Some(rest);
        if r != Over(Eof) {
          return;
        }
        if exhausted || cursor == "" {
          return Over(Eof);
        }
        var failed := OpenNextPage();
        if failed.Some? {
          return Over(failed.value);
        }
      }
    }

    method Close()
      requires Valid()
      modifies this
      ensures Valid() && Rest() == Stream([], Eof) && sent == old(sent) && etag == old(etag)
    {
      page := None;
    }
  }

  /** If-None-Match goes out with the first request at most (RFC 9110, section 13.1.2). */
  ghost predicate OnlyFirstConditional(sent: seq<Request>) {
    forall i | 1 <= i < |sent| :: sent[i].ifNoneMatch == ""
  }

  /** What a stream opened with an ETag gives in all: None when the first page cannot be had. */
  function Streamed<T>(server: Server<T>, etag: string): Option<Stream<T>> {
    match FetchPage(server(0, Request("", etag)), etag)
    case None => None
    case Some(page) => Some(Drain(server, 1, page.next, page.body))
  }

  /** entitiesClient.Stream: the first page is opened at once. */
  method Open<T>(server: Server<T>, entity: string, snapshotId: string, etag: string)
    returns (r: Option<Reader<T>>)
    ensures r.Some? <==> entity != "" && snapshotId != "" && Streamed(server, etag).Some?
    ensures r.Some? ==>
              && fresh(r.value) && r.value.Valid() && r.value.server == server
              && Some(r.value.Rest()) == Streamed(server, etag) && r.value.sent == [Request("", etag)]
              && server(0, Request("", etag)).Status?
              && var a := server(0, Request("", etag));
              && r.value.etag == (if a.code == 200 then a.etag else if a.code == 304 then etag else "")
              && r.value.cursor == (if a.code == 200 then a.next else "")
  {
    if entity == "" || snapshotId == "" {
      return None;
    }
    var reader := new Reader(server, etag);
    var failed := reader.OpenNextPage();
    r := if failed.Some? then None else Some(reader);
  }

  lemma Regroup<T>(rows: seq<T>, left: seq<T>)
    requires left != []
    ensures rows + left == rows + [left[0]] + left[1..]
  {}

  /** The extraction step reads a stream to its end and takes all of it or nothing. */
  method ReadAll<T>(reader: Reader<T>) returns (r: Result<seq<T>, End>)
    requires reader.Valid()
    modifies reader
    ensures reader.Valid()
    ensures r == if old(reader.Rest()).end == Eof then Ok(old(reader.Rest()).rows) else Err(old(reader.Rest()).end)
  {
    hide Drain;
    ghost var all := reader.Rest();
    var rows := [];
    while true
      invariant reader.Valid() && all.rows == rows + reader.Rest().rows && all.end == reader.Rest().end
      decreases |reader.Rest().rows|
    {
      ghost var left := reader.Rest().rows;
      var next := reader.Next();
      if next.Over? {
        assert rows + left == rows;
        return if next.end == Eof then Ok(rows) else Err(next.end);
      }
      Regroup(rows, left);
      rows := rows + [next.value];
    }
  }

  // The pages as the server laid them out.

  /** All rows of a body, whatever stands between them. */
  function Values<T>(lines: seq<Line<T>>): seq<T> {
    if lines == [] then []
    else (if lines[0].Good? then [lines[0].value] else []) + Values(lines[1..])
  }

  predicate Sound<T>(body: Body<T>) { !body.broken && forall k | 0 <= k < |body.lines| :: !body.lines[k].Bad? }

  /** A page, and not one of the answers that merely count as an empty one. */
  predicate IsPage<T>(a: Answer<T>) { a.Status? && a.code == 200 }

  /** An answer that ends the stream as if it were an empty last page. */
  predicate EndsEarly<T>(a: Answer<T>) { a.Status? && (a.code == 304 || a.code == 404 || a.code == 501) }

  /** The rows of the pages behind the cursor, as far as there are pages and the cap allows to go. */
  function Concatenated<T>(server: Server<T>, i: nat, cursor: string): seq<T>
    decreases Max(PAGE_CAP - i, 0)
  {
    if cursor == "" || i >= PAGE_CAP then []
    else
      var a := server(i, Request(cursor, ""));
      if IsPage(a) then Values(a.body.lines) + Concatenated(server, i + 1, a.next) else []
  }

  /** The pages behind the cursor are all there, can be read, and the last of them comes without a successor. */
  predicate Complete<T>(server: Server<T>, i: nat, cursor: string)
    decreases Max(PAGE_CAP - i, 0)
  {
    cursor == "" ||
    (i < PAGE_CAP &&
     var a := server(i, Request(cursor, ""));
     IsPage(a) && Sound(a.body) && Complete(server, i + 1, a.next))
  }

  /** Behind some pages that are there and can be read, a cursor is answered with 304, 404 or 501. */
  predicate CutShort<T>(server: Server<T>, i: nat, cursor: string)
    decreases Max(PAGE_CAP - i, 0)
  {
    cursor != "" && i < PAGE_CAP &&
    var a := server(i, Request(cursor, ""));
    EndsEarly(a) || (IsPage(a) && Sound(a.body) && CutShort(server, i + 1, a.next))
  }

  lemma {:induction false} BlanksHaveNoValues<T>(lines: seq<Line<T>>)
    ensures Values(SkipBlanks(lines)) == Values(lines)
    ensures Sound(Body(SkipBlanks(lines), false)) <==> Sound(Body(lines, false))
  {
    if lines != [] && lines[0].Blank? {
      BlanksHaveNoValues(lines[1..]);
      SoundByFirst(lines);
    }
  }

  lemma SoundByFirst<T>(lines: seq<Line<T>>)
    requires lines != []
    ensures Sound(Body(lines, false)) <==> !lines[0].Bad? && Sound(Body(lines[1..], false))
  {
    forall k | 1 <= k < |lines|
      ensures lines[k] == lines[1..][k - 1]
    {}
    if !lines[0].Bad? && Sound(Body(lines[1..], false)) {
      forall k | 0 <= k < |lines|
        ensures !lines[k].Bad?
      {
        if k > 0 {
          assert !lines[1..][k - 1].Bad?;
        }
      }
    }
  }

  /** What comes first: a row, the end of the last page, or the next page. */
  lemma DrainStep<T>(server: Server<T>, i: nat, cursor: string, body: Body<T>)
    ensures var lines := SkipBlanks(body.lines);
            Drain(server, i, cursor, body) ==
            if lines == [] then
              if body.broken then Stream([], BrokenBody) else Drain(server, i, cursor, Body([], false))
            else if lines[0].Good? then
              var rest := Drain(server, i, cursor, Body(lines[1..], body.broken));
              Stream([lines[0].value] + rest.rows, rest.end)
            else Stream([], BadLine)
  {
  }

  lemma NextPage<T>(server: Server<T>, i: nat, cursor: string)
    ensures Drain(server, i, cursor, Body([], false)) ==
            if cursor == "" then Stream([], Eof)
            else if i >= PAGE_CAP then Stream([], TooManyPages)
            else
              var a := server(i, Request(cursor, ""));
              if IsPage(a) then Drain(server, i + 1, a.next, a.body)
              else Stream([], if EndsEarly(a) then Eof else FetchFailed)
  {
  }

  /** A stream gives a prefix of the pages' rows, and all of them when it reports the end. */
  lemma {:induction false} DrainIsAPrefix<T>(server: Server<T>, i: nat, cursor: string, body: Body<T>)
    ensures var all := Values(body.lines) + Concatenated(server, i, cursor);
            var s := Drain(server, i, cursor, body);
            s.rows <= all && (s.end == Eof ==> s.rows == all)
    decreases Max(PAGE_CAP - i, 0), |body.lines|
  {
    hide SkipBlanks, Drain, FetchPage;
    var lines := SkipBlanks(body.lines);
    BlanksHaveNoValues(body.lines);
    DrainStep(server, i, cursor, body);
    if lines != [] {
      hide Concatenated;
      if lines[0].Good? {
        DrainIsAPrefix(server, i, cursor, Body(lines[1..], body.broken));
        assert Values(lines) + Concatenated(server, i, cursor)
            == [lines[0].value] + (Values(lines[1..]) + Concatenated(server, i, cursor));
      }
    } else {
      NextPage(server, i, cursor);
      assert Values(body.lines) == [];
      if cursor != "" && i < PAGE_CAP && IsPage(server(i, Request(cursor, ""))) {
        var a := server(i, Request(cursor, ""));
        DrainIsAPrefix(server, i + 1, a.next, a.body);
      }
    }
  }

  /** It reports the end when every page is there and sound and the last one has no cursor, and also when a later page
      is answered as if there were none; never otherwise, and never for both reasons. */
  lemma {:induction false} EndMeansComplete<T>(server: Server<T>, i: nat, cursor: string, body: Body<T>)
    ensures Drain(server, i, cursor, body).end == Eof
       <==> Sound(body) && (Complete(server, i, cursor) || CutShort(server, i, cursor))
    ensures !(Complete(server, i, cursor) && CutShort(server, i, cursor))
    decreases Max(PAGE_CAP - i, 0), |body.lines|
  {
    hide Values;
    var lines := SkipBlanks(body.lines);
    BlanksHaveNoValues(body.lines);
    if lines != [] {
      SoundByFirst(lines);
      EndMeansComplete(server, i, cursor, Body(lines[1..], body.broken));
    } else if cursor != "" && i < PAGE_CAP {
      var a := server(i, Request(cursor, ""));
      if IsPage(a) {
        EndMeansComplete(server, i + 1, a.next, a.body);
      }
    }
  }

  /** No cursor is answered with 304, 404 or 501. */
  ghost predicate NeverCuts<T>(server: Server<T>) {
    forall i: nat, cursor | i >= 1 && cursor != "" :: !EndsEarly(server(i, Request(cursor, "")))
  }

  lemma {:induction false} NotCutShort<T>(server: Server<T>, i: nat, cursor: string)
    requires NeverCuts(server) && i >= 1
    ensures !CutShort(server, i, cursor)
    decreases Max(PAGE_CAP - i, 0)
  {
    if cursor != "" && i < PAGE_CAP && IsPage(server(i, Request(cursor, ""))) {
      NotCutShort(server, i + 1, server(i, Request(cursor, "")).next);
    }
  }

  /** Against a server that answers every cursor with its page or an error, the end comes exactly when all pages are
      there and readable, and with all their rows. */
  lemma EndComesWithAllRows<T>(server: Server<T>, i: nat, cursor: string, body: Body<T>)
    requires NeverCuts(server) && i >= 1
    ensures var s := Drain(server, i, cursor, body);
            && (s.end == Eof <==> Sound(body) && Complete(server, i, cursor))
            && (s.end == Eof ==> s.rows == Values(body.lines) + Concatenated(server, i, cursor))
  {
    hide *;
    EndMeansComplete(server, i, cursor, body);
    NotCutShort(server, i, cursor);
    DrainIsAPrefix(server, i, cursor, body);
  }

  // Against the export API.

  /** How a cursor carries a primary key: an encoder that never writes the empty text, and its decoder. */
  datatype CursorCodec = CursorCodec(show: string -> string, read: string -> string)

  ghost predicate Exact(codec: CursorCodec) {
    codec.read("") == "" && forall pk :: codec.show(pk) != "" && codec.read(codec.show(pk)) == pk
  }

  /** The cursor that the export sends with a page. */
  function CursorOf<D>(codec: CursorCodec, page: Table<D>, limit: nat): string {
    if NextPk(page, limit) == "" then "" else codec.show(NextPk(page, limit))
  }

  /** The handler of a GET: a client that already has this snapshot gets a 304, on whatever page. */
  function Handler<D(!new)>(less: Order<string>, codec: CursorCodec, t: Table<D>, limit: nat, etag: string):
    Server<Row<string, D>>
  {
    (i, request: Request) =>
      var page := Page(less, Some(codec.read(request.cursor)), t, limit);
      if request.ifNoneMatch != "" && request.ifNoneMatch == etag then Status(304, etag, "", Body([], false))
      else Status(200, etag, CursorOf(codec, page, limit), AsBody(page))
  }

  function AsBody<T>(rows: seq<T>): (body: Body<T>)
    ensures Sound(body)
  {
    Body(seq(|rows|, i requires 0 <= i < |rows| => Good(rows[i])), false)
  }

  /** Sound bodies are passed on as they are. */
  lemma {:induction false} DrainBody<T>(server: Server<T>, i: nat, cursor: string, rows: seq<T>)
    ensures var rest := Drain(server, i, cursor, Body([], false));
            Drain(server, i, cursor, AsBody(rows)) == Stream(rows + rest.rows, rest.end)
  {
    if rows != [] {
      assert AsBody(rows).lines[1..] == AsBody(rows[1..]).lines;
      DrainBody(server, i, cursor, rows[1..]);
      assert rows == [rows[0]] + rows[1..];
    }
  }

  /** Behind the last row of a page: the end, the cap, or the page that the cursor asks for. */
  lemma NextOfTheExport<D(!new)>(less: Order<string>, codec: CursorCodec, t: Table<D>, limit: nat, etag: string,
                                 i: nat, page: Table<D>)
    requires Exact(codec)
    ensures var s := Drain(Handler(less, codec, t, limit, etag), i, CursorOf(codec, page, limit), Body([], false));
            var pk := NextPk(page, limit);
            var next := Page(less, Some(pk), t, limit);
            s ==
            if pk == "" then Stream([], Eof)
            else if i >= PAGE_CAP then Stream([], TooManyPages)
            else Drain(Handler(less, codec, t, limit, etag), i + 1, CursorOf(codec, next, limit), AsBody(next))
  {
    hide Page, NextPk, AsBody;
  }

  lemma ScanStep<D(!new)>(less: Order<string>, t: Table<D>, pk: string, limit: nat)
    requires Collation(less)
    ensures var page := Page(less, Some(pk), t, limit);
            var next := NextPk(page, limit);
            && Scan(less, t, pk, limit) == (if next == "" then page else page + Scan(less, t, next, limit))
            && PageCount(less, t, pk, limit) == if next == "" then 1 else 1 + PageCount(less, t, next, limit)
  {
    hide Page, NextPk, Collation;
  }

  lemma LongerPrefix<T>(front: seq<T>, a: seq<T>, b: seq<T>)
    requires a <= b
    ensures front + a <= front + b
  {
  }

  /** From the second page on: the whole scan and its end, or, when that takes more pages than the cap, an error
      and a proper beginning. */
  lemma {:induction false} DrainTheExport<D(!new)>(less: Order<string>, codec: CursorCodec, t: Table<D>, limit: nat,
                                                   etag: string, i: nat, pk: string)
    requires Collation(less) && Exact(codec) && limit >= 1 && i <= PAGE_CAP
    ensures var page := Page(less, Some(pk), t, limit);
            var s := Drain(Handler(less, codec, t, limit, etag), i, CursorOf(codec, page, limit), AsBody(page));
            && s.rows <= Scan(less, t, pk, limit)
            && s.end == (if i + PageCount(less, t, pk, limit) - 1 <= PAGE_CAP then Eof else TooManyPages)
            && (s.end == Eof ==> s.rows == Scan(less, t, pk, limit))
    decreases PAGE_CAP - i
  {
    hide Page, NextPk, Drain, Handler, Scan, PageCount, CursorOf, AsBody, Collation, Exact;
    var server := Handler(less, codec, t, limit, etag);
    var page := Page(less, Some(pk), t, limit);
    DrainBody(server, i, CursorOf(codec, page, limit), page);
    NextOfTheExport(less, codec, t, limit, etag, i, page);
    ScanStep(less, t, pk, limit);
    var nextPk := NextPk(page, limit);
    if nextPk != "" && i < PAGE_CAP {
      DrainTheExport(less, codec, t, limit, etag, i + 1, nextPk);
      var next := Page(less, Some(nextPk), t, limit);
      LongerPrefix(page, Drain(server, i + 1, CursorOf(codec, next, limit), AsBody(next)).rows,
                   Scan(less, t, nextPk, limit));
    }
  }

  /** A client without the snapshot gets the whole scan if that takes at most 100000 pages, and an error otherwise;
      a client that has it gets an empty stream. */
  lemma StreamOfTheExport<D(!new)>(less: Order<string>, codec: CursorCodec, t: Table<D>, limit: nat,
                                   etag: string, known: string)
    requires Collation(less) && Exact(codec) && limit >= 1 && etag != ""
    ensures var s := Streamed(Handler(less, codec, t, limit, etag), known);
            && s.Some?
            && (known == etag ==> s.value == Stream([], Eof))
            && (known != etag ==>
                  && s.value.rows <= Scan(less, t, "", limit)
                  && s.value.end == (if PageCount(less, t, "", limit) <= 100_000 then Eof else TooManyPages)
                  && (s.value.end == Eof ==> s.value.rows == Scan(less, t, "", limit)))
  {
    if known != etag {
      DrainTheExport(less, codec, t, limit, etag, 1, "");
    }
  }

  /** A table in text order is streamed to its end exactly when |t| / limit + 1 pages fit under the cap. */
  lemma SortedExportCompletes<D(!new)>(less: Order<string>, codec: CursorCodec, t: Table<D>, limit: nat,
                                       etag: string, known: string)
    requires Collation(less) && Exact(codec) && limit >= 1 && etag != "" && known != etag
    requires Sorted(less, t) && (t != [] ==> t[0].key != "")
    ensures var s := Streamed(Handler(less, codec, t, limit, etag), known);
            s.Some? && s.value.end == (if |t| / limit + 1 <= 100_000 then Eof else TooManyPages)
            && s.value.rows <= t && (s.value.end == Eof ==> s.value.rows == t)
  {
    StreamOfTheExport(less, codec, t, limit, etag, known);
    SortedAgrees(less, t, 0, limit);
    SortedIsDistinct(less, t);
    ScanIsExact(less, t, limit);
    PagesOfAnExactScan(less, t, 0, limit);
    PagesByDivision(|t|, limit);
  }

  lemma SortedIsDistinct<D(!new)>(less: Order<string>, t: Table<D>)
    requires StrictOrder(less) && Sorted(less, t)
    ensures Distinct(t)
  {}

  /** The export API, but request k is answered with 404. */
  function Failing<T>(server: Server<T>, k: nat): Server<T> {
    (i: nat, request: Request) => if i == k then Status(404, "", "", Body([], false)) else server(i, request)
  }

  lemma OneLess(n: nat, limit: nat)
    ensures (n + 1) * limit == n * limit + limit && n * limit >= 0
  {
  }

  /** Pages of a table in text order follow one another. */
  lemma BothEndsCut<D(!new)>(less: Order<string>, t: Table<D>, b: nat, limit: nat)
    requires Collation(less) && limit >= 1 && b + limit <= |t|
    requires Sorted(less, t) && t[0].key != ""
    ensures CutsAt(less, t, b) && CutsAt(less, t, b + limit)
  {
    hide Sorted, CutsAt;
    SortedAgrees(less, t, b, limit);
    assert AgreesFrom(less, t, b + limit, limit);
  }

  lemma PageAfterPage<D(!new)>(less: Order<string>, t: Table<D>, b: nat, limit: nat)
    requires Collation(less) && limit >= 1 && b + limit <= |t|
    requires Sorted(less, t) && t[0].key != ""
    ensures var pk := NextPk(t[b..b + limit], limit);
            pk != "" && Page(less, Some(pk), t, limit) == t[b + limit..Min(b + 2 * limit, |t|)]
  {
    hide Page, NextPk, CutsAt, AgreesFrom, Sorted;
    BothEndsCut(less, t, b, limit);
    CutPage(less, t, b, limit);
    CutPage(less, t, b + limit, limit);
  }

  /** Behind a page of that server. */
  lemma RefusedOrNext<D(!new)>(less: Order<string>, codec: CursorCodec, t: Table<D>, limit: nat, etag: string,
                               i: nat, k: nat, page: Table<D>)
    requires Exact(codec) && i <= k < PAGE_CAP && NextPk(page, limit) != ""
    ensures var server := Failing(Handler(less, codec, t, limit, etag), k);
            var next := Page(less, Some(NextPk(page, limit)), t, limit);
            Drain(server, i, CursorOf(codec, page, limit), Body([], false)) ==
            if i == k then Stream([], Eof) else Drain(server, i + 1, CursorOf(codec, next, limit), AsBody(next))
  {
    hide Drain, Page, NextPk, AsBody;
    NextPage(Failing(Handler(less, codec, t, limit, etag), k), i, CursorOf(codec, page, limit));
  }

  /** From the second page on: the rows up to the request that is refused. */
  lemma {:induction false} DrainUntilRefused<D(!new)>(less: Order<string>, codec: CursorCodec, t: Table<D>, limit: nat,
                                                      etag: string, i: nat, k: nat, b: nat, c: nat)
    requires Collation(less) && Exact(codec) && limit >= 1 && 1 <= i <= k < PAGE_CAP
    requires Sorted(less, t) && t != [] && t[0].key != ""
    requires b + limit <= c <= |t| && c == b + (k - i + 1) * limit
    ensures var page := t[b..b + limit];
            var server := Failing(Handler(less, codec, t, limit, etag), k);
            Drain(server, i, CursorOf(codec, page, limit), AsBody(page)) == Stream(t[b..c], Eof)
    decreases k - i
  {
    hide Drain, Handler, Failing, Page, NextPk, Collation, Exact, AsBody, CursorOf, Sorted;
    var page := t[b..b + limit];
    DrainBody(Failing(Handler(less, codec, t, limit, etag), k), i, CursorOf(codec, page, limit), page);
    PageAfterPage(less, t, b, limit);
    RefusedOrNext(less, codec, t, limit, etag, i, k, page);
    if i < k {
      OneLess(k - i, limit);
      OneLess(k - i - 1, limit);
      DrainUntilRefused(less, codec, t, limit, etag, i + 1, k, b + limit, c);
      assert t[b..b + limit] + t[b + limit..c] == t[b..c];
    } else {
      assert c == b + limit;
      assert page + [] == page;
    }
  }

  /** However many pages the table has, one 404 on the way makes its first k pages look like all of it. */
  lemma TruncatedExport<D(!new)>(less: Order<string>, codec: CursorCodec, t: Table<D>, limit: nat,
                                 etag: string, known: string, k: nat)
    requires Collation(less) && Exact(codec) && limit >= 1 && 1 <= k < PAGE_CAP && known != etag
    requires Sorted(less, t) && (t != [] ==> t[0].key != "") && k * limit <= |t|
    ensures Streamed(Failing(Handler(less, codec, t, limit, etag), k), known) == Some(Stream(t[..k * limit], Eof))
  {
    hide Drain, Page, NextPk, AsBody, Sorted;
    OneLess(k - 1, limit);
    FirstPage(less, t, limit);
    DrainUntilRefused(less, codec, t, limit, etag, 1, k, 0, k * limit);
    assert t[0..0 + limit] == t[..limit] && t[0..k * limit] == t[..k * limit];
  }

  lemma FirstPage<D(!new)>(less: Order<string>, t: Table<D>, limit: nat)
    requires Collation(less) && limit >= 1 && limit <= |t|
    requires Sorted(less, t) && t[0].key != ""
    ensures Page(less, Some(""), t, limit) == t[..limit]
  {
    SortedAgrees(less, t, 0, limit);
    CutPage(less, t, 0, limit);
  }
}
