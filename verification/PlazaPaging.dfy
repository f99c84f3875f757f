/** Keyset paging of the plaza: posts newest first, comments oldest first, and the
    opaque cursor between pages. Rows are (created_at, id) with created_at in the
    microseconds of the table; a cursor goes through a JavaScript Date and keeps milliseconds. */
module PlazaPaging {
  import opened Prelude
  import opened Strings

  // ---- the cursor text ----

  /** The library codecs: Date.toISOString and its parse, and base64. */
  datatype Codec = Codec(iso: int -> string, parseIso: string -> Option<int>, base64: string -> string, unbase64: string -> string)

  ghost predicate Lawful(c: Codec) {
    && (forall ms :: c.parseIso(c.iso(ms)) == Some(ms) && c.iso(ms) != "" && '|' !in c.iso(ms))
    && (forall s :: c.unbase64(c.base64(s)) == s)
    && c.unbase64("") == ""
  }

  function EncodeCursor(c: Codec, createdAtMs: int, id: string): Option<string> {
    if id == "" then None else Some(c.base64(c.iso(createdAtMs) + "|" + id))
  }

  function DecodeCursor(c: Codec, token: Option<string>): Option<(int, string)> {
    if token.None? || token.value == "" then None
    else
      var parts := Split(c.unbase64(token.value), '|');
      if |parts| < 2 || parts[0] == "" || parts[1] == "" then None
      else
        var at := c.parseIso(parts[0]);
        if at.None? then None else Some((at.value, parts[1]))
  }

  /** Decoding recovers what was encoded exactly when the id is non-empty and free of the separator. */
  lemma CursorRoundTrip(c: Codec, ms: int, id: string)
    requires Lawful(c)
    ensures DecodeCursor(c, EncodeCursor(c, ms, id)) == Some((ms, id)) <==> id != "" && '|' !in id
  {
    SplitFirst(c.iso(ms), id, '|');
    assert c.iso(ms) + "|" + id == c.iso(ms) + ['|'] + id;
    var text := c.iso(ms) + "|" + id;
    assert text != "" && c.unbase64(c.base64(text)) == text;
    var parts := Split(text, '|');
    assert parts[1] == Split(id, '|')[0];
    PiecesLackTheSeparator(id, '|');
    if '|' !in id {
      SplitWhole(id, '|');
    }
  }

  /** The texts that decode to this instant and id: an instant, the separator, the id, and
      whatever follows a further separator. */
  predicate Reads(c: Codec, text: string, at: string, more: string, ms: int, id: string) {
    && text == at + ['|'] + (id + more)
    && at != "" && '|' !in at && c.parseIso(at) == Some(ms) && id != "" && '|' !in id
    && (more == "" || more[0] == '|')
  }

  lemma DecodedReads(c: Codec, text: string, ms: int, id: string) returns (at: string, more: string)
    requires var parts := Split(text, '|');
      |parts| >= 2 && parts[0] != "" && parts[1] == id != "" && c.parseIso(parts[0]) == Some(ms)
    ensures Reads(c, text, at, more, ms, id)
  {
    JoinSplit(text, '|');
    PiecesLackTheSeparator(text, '|');
    var parts := Split(text, '|');
    hide Split;
    var rest := parts[1..];
    at, more := parts[0], if |parts| == 2 then "" else ['|'] + Join(rest[1..], '|');
    assert Join(rest, '|') == id + more;
  }

  lemma ReadIsDecoded(c: Codec, text: string, at: string, more: string, ms: int, id: string)
    requires Reads(c, text, at, more, ms, id)
    ensures var parts := Split(text, '|'); |parts| >= 2 && parts[0] == at && parts[1] == id
  {
    hide Split;
    SplitFirst(at, id + more, '|');
    if more == "" {
      assert id + more == id;
      SplitWhole(id, '|');
    } else {
      assert id + more == id + ['|'] + more[1..];
      SplitFirst(id, more[1..], '|');
    }
  }

  /** A token decodes exactly when its text reads so. */
  lemma DecodeIsExact(c: Codec, token: string, ms: int, id: string)
    requires Lawful(c)
    ensures DecodeCursor(c, Some(token)) == Some((ms, id)) <==> exists at, more :: Reads(c, c.unbase64(token), at, more, ms, id)
  {
    hide Split, Reads;
    var text := c.unbase64(token);
    if DecodeCursor(c, Some(token)) == Some((ms, id)) {
      var at, more := DecodedReads(c, text, ms, id);
    }
    forall at, more | Reads(c, text, at, more, ms, id) ensures DecodeCursor(c, Some(token)) == Some((ms, id)) {
      ReadIsDecoded(c, text, at, more, ms, id);
      ReadsIsText(c, text, at, more, ms, id);
    }
  }

  lemma ReadsIsText(c: Codec, text: string, at: string, more: string, ms: int, id: string)
    requires Reads(c, text, at, more, ms, id)
    ensures text != "" && at != "" && id != "" && c.parseIso(at) == Some(ms)
  {
  }

  // ---- the listing order ----

  datatype Order = NewestFirst | OldestFirst

  datatype Row = Row(at: int, id: nat)

  /** (created_at, id) as a row comparison. */
  predicate Less(p: Row, q: Row) {
    p.at < q.at || (p.at == q.at && p.id < q.id)
  }

  predicate Precedes(o: Order, p: Row, q: Row) {
    if o.NewestFirst? then Less(q, p) else Less(p, q)
  }

  lemma Ordered(o: Order, p: Row, q: Row)
    ensures p == q || Precedes(o, p, q) || Precedes(o, q, p)
  {
  }

  lemma Transitive(o: Order, p: Row, q: Row, r: Row)
    requires Precedes(o, p, q) && Precedes(o, q, r)
    ensures Precedes(o, p, r)
  {
  }

  lemma {:induction false} FirstExists(o: Order, s: set<Row>)
    requires s != {}
    ensures exists p :: p in s && forall q :: q in s - {p} ==> Precedes(o, p, q)
    decreases |s|
  {
    hide Precedes;
    var x :| x in s;
    var rest := s - {x};
    var p := x;
    if rest != {} {
      FirstExists(o, rest);
      var y :| y in rest && forall q :: q in rest - {y} ==> Precedes(o, y, q);
      Ordered(o, x, y);
      if Precedes(o, x, y) {
        forall q | q in rest - {y} ensures Precedes(o, x, q) {
          Transitive(o, x, y, q);
        }
      } else {
        p := y;
      }
    }
    assert forall q :: q in s - {p} ==> Precedes(o, p, q);
  }

  ghost function First(o: Order, s: set<Row>): (p: Row)
    requires s != {}
    ensures p in s && forall q :: q in s - {p} ==> Precedes(o, p, q)
  {
    FirstExists(o, s);
    var p :| p in s && forall q :: q in s - {p} ==> Precedes(o, p, q);
    p
  }

  /** ORDER BY created_at, id in the listing's direction. */
  ghost function Sort(o: Order, s: set<Row>): (r: seq<Row>)
    ensures |r| == |s|
    decreases |s|
  {
    if s == {} then [] else [First(o, s)] + Sort(o, s - {First(o, s)})
  }

  lemma {:induction false} SortMembers(o: Order, s: set<Row>)
    ensures forall p :: p in Sort(o, s) <==> p in s
    decreases |s|
  {
    if s != {} {
      SortMembers(o, s - {First(o, s)});
    }
  }

  lemma {:induction false} SortPrecedes(o: Order, s: set<Row>)
    ensures forall i, j :: 0 <= i < j < |s| ==> Precedes(o, Sort(o, s)[i], Sort(o, s)[j])
    decreases |s|
  {
    hide Precedes;
    if s != {} {
      var rest := s - {First(o, s)};
      SortPrecedes(o, rest);
      SortMembers(o, rest);
    }
  }

  /** Earlier in the listing: by time, then by id. */
  predicate Ahead(o: Order, p: Row, q: Row) {
    match o
    case NewestFirst => p.at > q.at || (p.at == q.at && p.id > q.id)
    case OldestFirst => p.at < q.at || (p.at == q.at && p.id < q.id)
  }

  /** The listing has every row once, in strict order. */
  lemma SortIsStrict(o: Order, s: set<Row>)
    ensures forall p :: p in Sort(o, s) <==> p in s
    ensures forall i, j :: 0 <= i < j < |s| ==> Ahead(o, Sort(o, s)[i], Sort(o, s)[j])
  {
    SortMembers(o, s);
    SortPrecedes(o, s);
    hide Sort;
  }

  // ---- pages ----

  /** The rows behind a cursor. */
  function Rest(o: Order, s: set<Row>, cursor: Option<Row>): set<Row> {
    set p | p in s && (cursor.None? || Precedes(o, cursor.value, p))
  }

  /** What the cursor keeps of a row. */
  function Cut(p: Row): Row {
    Row(p.at - p.at % 1000, p.id)
  }

  datatype Page = Page(rows: seq<Row>, hasMore: bool)

  /** LIMIT limit + 1, of which `limit` are shown. */
  ghost function PageAt(o: Order, s: set<Row>, cursor: Option<Row>, limit: nat): Page {
    var rows := Sort(o, Rest(o, s, cursor))[..Min(limit + 1, |Rest(o, s, cursor)|)];
    Page(rows[..Min(limit, |rows|)], |rows| > limit)
  }

  /** What a client collects that follows nextCursor for at most n pages; page i is
      served from `tables(i)`. */
  ghost function Walk(o: Order, tables: nat -> set<Row>, i: nat, cursor: Option<Row>, limit: nat, n: nat): seq<Row>
    requires limit >= 1
    decreases n
  {
    if n == 0 then []
    else
      var page := PageAt(o, tables(i), cursor, limit);
      page.rows + if page.hasMore then Walk(o, tables, i + 1, Some(Cut(page.rows[|page.rows| - 1])), limit, n - 1) else []
  }

  lemma Asymmetric(o: Order, p: Row, q: Row)
    ensures !(Precedes(o, p, q) && Precedes(o, q, p)) && !Precedes(o, p, p)
  {
  }

  lemma RowIsMember(o: Order, s: set<Row>, k: nat)
    requires k < |s|
    ensures Sort(o, s)[k] in s
  {
    SortMembers(o, s);
    assert Sort(o, s)[k] in Sort(o, s);
  }

  lemma BehindTheFirst(o: Order, s: set<Row>)
    requires s != {}
    ensures Rest(o, s, Some(First(o, s))) == s - {First(o, s)}
  {
    hide Precedes;
    Asymmetric(o, First(o, s), First(o, s));
  }

  lemma BehindALaterRow(o: Order, s: set<Row>, l: Row)
    requires s != {} && l in s - {First(o, s)}
    ensures Rest(o, s, Some(l)) == Rest(o, s - {First(o, s)}, Some(l))
  {
    hide Precedes;
    Asymmetric(o, First(o, s), l);
  }

  /** Cutting the listing after its k-th row is asking for the rows behind it. */
  lemma {:induction false} RestOfSort(o: Order, s: set<Row>, k: nat)
    requires k < |s|
    ensures Sort(o, Rest(o, s, Some(Sort(o, s)[k]))) == Sort(o, s)[k + 1..]
    decreases |s|
  {
    hide Rest, Precedes, First;
    var rest := s - {First(o, s)};
    var tail := Sort(o, rest);
    assert Sort(o, s) == [First(o, s)] + tail;
    if k == 0 {
      BehindTheFirst(o, s);
    } else {
      RowIsMember(o, rest, k - 1);
      BehindALaterRow(o, s, tail[k - 1]);
      RestOfSort(o, rest, k - 1);
    }
  }

  /** Between pages the table may change, but not behind any row already served. */
  ghost predicate OnlyGrowsAhead(o: Order, tables: nat -> set<Row>) {
    forall i: nat, j: nat, p :: i <= j ==>
      (p in tables(i) ==> p in tables(j))
      && (p in tables(j) && p !in tables(i) ==> forall q :: q in tables(i) ==> Precedes(o, p, q))
  }

  ghost predicate WholeMilliseconds(s: set<Row>) {
    forall p :: p in s ==> p.at % 1000 == 0
  }

  lemma RestComposes(o: Order, s: set<Row>, cursor: Option<Row>, l: Row)
    requires l in Rest(o, s, cursor)
    ensures l in s
    ensures Rest(o, Rest(o, s, cursor), Some(l)) == Rest(o, s, Some(l))
  {
  }

  lemma GrowthIsInvisible(o: Order, tables: nat -> set<Row>, i: nat, l: Row)
    requires OnlyGrowsAhead(o, tables) && l in tables(i)
    ensures Rest(o, tables(i + 1), Some(l)) == Rest(o, tables(i), Some(l))
  {
    forall p ensures p in Rest(o, tables(i + 1), Some(l)) <==> p in Rest(o, tables(i), Some(l)) {
      assert p in tables(i) ==> p in tables(i + 1);
      if p in tables(i + 1) && p !in tables(i) {
        assert Precedes(o, p, l);
      }
    }
  }

  /** A page that is not the last: what it shows, and what is behind its last row. */
  lemma PageBoundary(o: Order, s: set<Row>, cursor: Option<Row>, limit: nat) returns (l: Row)
    requires limit >= 1 && PageAt(o, s, cursor, limit).hasMore
    ensures limit <= |Rest(o, s, cursor)| && l in s
    ensures PageAt(o, s, cursor, limit).rows == Sort(o, Rest(o, s, cursor))[..limit]
    ensures l == Sort(o, Rest(o, s, cursor))[limit - 1]
    ensures Sort(o, Rest(o, s, Some(l))) == Sort(o, Rest(o, s, cursor))[limit..]
    ensures Rest(o, s, Some(l)) == Rest(o, Rest(o, s, cursor), Some(l))
  {
    hide Sort, Rest;
    var r := Rest(o, s, cursor);
    l := Sort(o, r)[limit - 1];
    RowIsMember(o, r, limit - 1);
    RestOfSort(o, r, limit - 1);
    RestComposes(o, s, cursor, l);
    assert Sort(o, r)[..Min(limit + 1, |r|)][..limit] == Sort(o, r)[..limit];
  }

  /** The last page shows everything left. */
  lemma LastPage(o: Order, s: set<Row>, cursor: Option<Row>, limit: nat)
    requires !PageAt(o, s, cursor, limit).hasMore
    ensures PageAt(o, s, cursor, limit).rows == Sort(o, Rest(o, s, cursor))
  {
  }

  /** Complete paging: with whole-millisecond timestamps, following nextCursor until
      hasMore is false yields every row of the table the walk started on exactly
      once, in listing order, unaffected by rows that meanwhile enter ahead of it. */
  lemma {:induction false} WalkIsComplete(o: Order, tables: nat -> set<Row>, i: nat, cursor: Option<Row>, limit: nat, n: nat)
    requires limit >= 1 && OnlyGrowsAhead(o, tables)
    requires forall j: nat :: WholeMilliseconds(tables(j))
    requires n > |Rest(o, tables(i), cursor)|
    ensures Walk(o, tables, i, cursor, limit, n) == Sort(o, Rest(o, tables(i), cursor))
    decreases n
  {
    hide Sort, Rest, PageAt, OnlyGrowsAhead;
    var s := tables(i);
    var sorted := Sort(o, Rest(o, s, cursor));
    if PageAt(o, s, cursor, limit).hasMore {
      var l := PageBoundary(o, s, cursor, limit);
      assert Cut(l) == l by { assert WholeMilliseconds(s); }
      GrowthIsInvisible(o, tables, i, l);
      assert |Rest(o, s, Some(l))| == |sorted| - limit;
      WalkIsComplete(o, tables, i + 1, Some(l), limit, n - 1);
      assert sorted == sorted[..limit] + sorted[limit..];
    } else {
      LastPage(o, s, cursor, limit);
    }
  }

  // ---- finer timestamps ----

  /** Posts behind `l` in the listing that the millisecond cursor of `l` jumps over: of the same
      millisecond, and not at its start with a smaller id. */
  function JumpedOver(s: set<Row>, l: Row): set<Row> {
    set p | p in s && p.at / 1000 == l.at / 1000
            && (p.at < l.at || (p.at == l.at && p.id < l.id)) && (p.at % 1000 != 0 || p.id >= l.id)
  }

  /** One boundary of the posts listing: the next page's query selects the rows behind
      the last one shown, less the ones jumped over. */
  lemma PostCursorLosesTheJumped(s: set<Row>, l: Row)
    ensures Rest(NewestFirst, s, Some(Cut(l))) == Rest(NewestFirst, s, Some(l)) - JumpedOver(s, l)
  {
  }

  // ---- where pages end ----

  /** Page m of a listing cut into pages of `limit` is full and not the last. */
  predicate EndsPage(n: nat, limit: nat, m: nat) {
    m >= 1 && m * limit < n
  }

  /** The last row of page m. */
  function PageEnd(sorted: seq<Row>, limit: nat, m: nat): Row
    requires limit >= 1 && EndsPage(|sorted|, limit, m)
  {
    PositiveProduct(m, limit);
    sorted[m * limit - 1]
  }

  lemma PositiveProduct(m: nat, limit: nat)
    requires m >= 1 && limit >= 1
    ensures m * limit >= limit
  {
  }

  /** `ok` holds of the last row of every page but the last. */
  ghost predicate AtPageEnds(sorted: seq<Row>, limit: nat, ok: Row -> bool)
    requires limit >= 1
  {
    forall m: nat :: EndsPage(|sorted|, limit, m) ==> ok(PageEnd(sorted, limit, m))
  }

  /** The first page's end, then the ends in the rest of the listing. */
  lemma PageEndsSplit(sorted: seq<Row>, limit: nat, ok: Row -> bool)
    requires limit >= 1 && |sorted| > limit
    ensures AtPageEnds(sorted, limit, ok) <==> ok(sorted[limit - 1]) && AtPageEnds(sorted[limit..], limit, ok)
  {
    var rest := sorted[limit..];
    assert EndsPage(|sorted|, limit, 1) && PageEnd(sorted, limit, 1) == sorted[limit - 1];
    forall m: nat | m >= 1
      ensures EndsPage(|rest|, limit, m) <==> EndsPage(|sorted|, limit, m + 1)
      ensures EndsPage(|rest|, limit, m) ==> PageEnd(rest, limit, m) == PageEnd(sorted, limit, m + 1)
    {
      assert (m + 1) * limit == m * limit + limit;
      PositiveProduct(m, limit);
    }
    if AtPageEnds(sorted, limit, ok) {
      forall m: nat | EndsPage(|rest|, limit, m) ensures ok(PageEnd(rest, limit, m)) {
        assert ok(PageEnd(sorted, limit, m + 1));
      }
    }
    if ok(sorted[limit - 1]) && AtPageEnds(rest, limit, ok) {
      forall m: nat | EndsPage(|sorted|, limit, m) ensures ok(PageEnd(sorted, limit, m)) {
        if m > 1 {
          assert EndsPage(|rest|, limit, m - 1);
        }
      }
    }
  }

  lemma NoPageEnds(sorted: seq<Row>, limit: nat, ok: Row -> bool)
    requires limit >= 1 && |sorted| <= limit
    ensures AtPageEnds(sorted, limit, ok)
  {
    forall m: nat | m >= 1 ensures !EndsPage(|sorted|, limit, m) {
      PositiveProduct(m, limit);
    }
  }

  /** No post of the table is jumped over after this one. */
  ghost function JumpsNothing(s: set<Row>): Row -> bool {
    l => JumpedOver(s, l) == {}
  }

  function WholeMillisecond(): Row -> bool {
    (l: Row) => l.at % 1000 == 0
  }

  /** How many rows the query after boundary `l` still selects. */
  lemma AfterTheBoundary(s: set<Row>, cursor: Option<Row>, l: Row, limit: nat)
    requires limit >= 1 && PageAt(NewestFirst, s, cursor, limit).hasMore
    requires limit <= |Rest(NewestFirst, s, cursor)| && l == Sort(NewestFirst, Rest(NewestFirst, s, cursor))[limit - 1]
    ensures |Rest(NewestFirst, s, Some(Cut(l)))| + |JumpedOver(s, l)| == |Rest(NewestFirst, s, cursor)| - limit
  {
    var l' := PageBoundary(NewestFirst, s, cursor, limit);
    PostCursorLosesTheJumped(s, l);
    var behind := Rest(NewestFirst, s, Some(l));
    assert |behind| == |Rest(NewestFirst, s, cursor)| - limit;
    assert JumpedOver(s, l) <= behind;
    assert behind == Rest(NewestFirst, s, Some(Cut(l))) + JumpedOver(s, l);
  }

  /** A walk that is not over: its first page, then the walk behind the page's last row. */
  lemma WalkOn(o: Order, s: set<Row>, i: nat, cursor: Option<Row>, limit: nat, n: nat) returns (l: Row)
    requires limit >= 1 && n >= 1 && PageAt(o, s, cursor, limit).hasMore
    ensures limit <= |Rest(o, s, cursor)| && l in s
    ensures l == Sort(o, Rest(o, s, cursor))[limit - 1] && l == PageAt(o, s, cursor, limit).rows[limit - 1]
    ensures |PageAt(o, s, cursor, limit).rows| == limit
    ensures Sort(o, Rest(o, s, Some(l))) == Sort(o, Rest(o, s, cursor))[limit..]
    ensures Walk(o, _ => s, i, cursor, limit, n)
            == Sort(o, Rest(o, s, cursor))[..limit] + Walk(o, _ => s, i + 1, Some(Cut(l)), limit, n - 1)
  {
    hide Sort, Rest;
    l := PageBoundary(o, s, cursor, limit);
  }

  lemma LastWalk(o: Order, s: set<Row>, i: nat, cursor: Option<Row>, limit: nat, n: nat)
    requires limit >= 1 && n >= 1 && !PageAt(o, s, cursor, limit).hasMore
    ensures Walk(o, _ => s, i, cursor, limit, n) == Sort(o, Rest(o, s, cursor))
  {
    hide Sort, Rest, PageAt;
    LastPage(o, s, cursor, limit);
  }

  lemma {:induction false} WalkStaysInTheRest(s: set<Row>, i: nat, cursor: Option<Row>, limit: nat, n: nat)
    requires limit >= 1
    ensures |Walk(NewestFirst, _ => s, i, cursor, limit, n)| <= |Rest(NewestFirst, s, cursor)|
    decreases n
  {
    hide Sort, Rest, PageAt, JumpedOver;
    if n > 0 {
      if PageAt(NewestFirst, s, cursor, limit).hasMore {
        var l := WalkOn(NewestFirst, s, i, cursor, limit, n);
        WalkStaysInTheRest(s, i + 1, Some(Cut(l)), limit, n - 1);
        AfterTheBoundary(s, cursor, l, limit);
      } else {
        LastPage(NewestFirst, s, cursor, limit);
      }
    }
  }

  /** Exactly when posts paging works on the table's own microsecond timestamps: the walk yields
      all matching posts if and only if, in the listing cut into pages of `limit`, no page but
      the last ends with a post that has another one later in its millisecond behind it. */
  lemma {:induction false} PostsWalkIsCompleteIffClean(s: set<Row>, i: nat, cursor: Option<Row>, limit: nat, n: nat)
    requires limit >= 1 && n > |Rest(NewestFirst, s, cursor)|
    ensures Walk(NewestFirst, _ => s, i, cursor, limit, n) == Sort(NewestFirst, Rest(NewestFirst, s, cursor))
            <==> AtPageEnds(Sort(NewestFirst, Rest(NewestFirst, s, cursor)), limit, JumpsNothing(s))
    decreases n
  {
    hide Sort, Rest, JumpedOver, Walk, AtPageEnds;
    var sorted := Sort(NewestFirst, Rest(NewestFirst, s, cursor));
    if PageAt(NewestFirst, s, cursor, limit).hasMore {
      hide PageAt;
      var l := WalkOn(NewestFirst, s, i, cursor, limit, n);
      var tail := Walk(NewestFirst, _ => s, i + 1, Some(Cut(l)), limit, n - 1);
      AfterTheBoundary(s, cursor, l, limit);
      WalkStaysInTheRest(s, i + 1, Some(Cut(l)), limit, n - 1);
      assert |JumpedOver(s, l)| > 0 ==> |tail| < |sorted| - limit;
      MoreBehind(NewestFirst, s, cursor, limit);
      PageEndsSplit(sorted, limit, JumpsNothing(s));
      if JumpedOver(s, l) == {} {
        PostsWalkIsCompleteIffClean(s, i + 1, Some(Cut(l)), limit, n - 1);
        PostCursorLosesTheJumped(s, l);
        assert Rest(NewestFirst, s, Some(Cut(l))) == Rest(NewestFirst, s, Some(l));
        assert sorted == sorted[..limit] + sorted[limit..];
        SameTail(sorted[..limit], tail, sorted[limit..]);
      }
    } else {
      LastWalk(NewestFirst, s, i, cursor, limit, n);
      NoMoreBehind(NewestFirst, s, cursor, limit);
      NoPageEnds(sorted, limit, JumpsNothing(s));
    }
  }

  lemma MoreBehind(o: Order, s: set<Row>, cursor: Option<Row>, limit: nat)
    requires PageAt(o, s, cursor, limit).hasMore
    ensures |Sort(o, Rest(o, s, cursor))| > limit
  {
    hide Sort, Rest;
  }

  lemma NoMoreBehind(o: Order, s: set<Row>, cursor: Option<Row>, limit: nat)
    requires !PageAt(o, s, cursor, limit).hasMore
    ensures |Sort(o, Rest(o, s, cursor))| <= limit
  {
    hide Sort, Rest;
  }

  lemma SameTail<T>(p: seq<T>, a: seq<T>, b: seq<T>)
    ensures p + a == p + b <==> a == b
  {
    assert a == (p + a)[|p|..] && b == (p + b)[|p|..];
  }

  /** Comments page in the other direction, where a shortened cursor falls before the
      last comment shown: the next page shows it again exactly when its timestamp is
      not a whole millisecond. */
  lemma CommentCursorRepeats(s: set<Row>, l: Row)
    requires l in s
    ensures l in Rest(OldestFirst, s, Some(Cut(l))) <==> l.at % 1000 != 0
  {
  }

  lemma FirstPageRow(o: Order, s: set<Row>, i: nat, cursor: Option<Row>, limit: nat, n: nat)
    requires limit >= 1 && n >= 1 && Rest(o, s, cursor) != {}
    ensures Walk(o, _ => s, i, cursor, limit, n) != []
    ensures Walk(o, _ => s, i, cursor, limit, n)[0] == First(o, Rest(o, s, cursor))
  {
    hide Rest, First;
    var rows := PageAt(o, s, cursor, limit).rows;
    assert rows != [] && rows[0] == Sort(o, Rest(o, s, cursor))[0];
    assert Walk(o, _ => s, i, cursor, limit, n)[..|rows|] == rows;
  }

  /** A shortened comment cursor makes the next page start no later than the last row shown. */
  lemma NextPageStartsEarly(s: set<Row>, i: nat, l: Row, limit: nat, n: nat)
    requires limit >= 1 && n >= 1 && l in s && l.at % 1000 != 0
    ensures Walk(OldestFirst, _ => s, i, Some(Cut(l)), limit, n) != []
    ensures !Precedes(OldestFirst, l, Walk(OldestFirst, _ => s, i, Some(Cut(l)), limit, n)[0])
  {
    hide Walk;
    CommentCursorRepeats(s, l);
    var r := Rest(OldestFirst, s, Some(Cut(l)));
    assert l in r;
    FirstPageRow(OldestFirst, s, i, Some(Cut(l)), limit, n);
    Asymmetric(OldestFirst, l, First(OldestFirst, r));
  }

  /** Exactly when comment paging works: the walk yields all comments, each once and in order, if
      and only if, in the listing cut into pages of `limit`, every page but the last ends with
      a comment at a whole millisecond. */
  lemma {:induction false} CommentsWalkIsCompleteIffWhole(s: set<Row>, i: nat, cursor: Option<Row>, limit: nat, n: nat)
    requires limit >= 1 && n > |Rest(OldestFirst, s, cursor)|
    ensures Walk(OldestFirst, _ => s, i, cursor, limit, n) == Sort(OldestFirst, Rest(OldestFirst, s, cursor))
            <==> AtPageEnds(Sort(OldestFirst, Rest(OldestFirst, s, cursor)), limit, WholeMillisecond())
    decreases n
  {
    hide Sort, Rest, Precedes, Walk, AtPageEnds;
    var sorted := Sort(OldestFirst, Rest(OldestFirst, s, cursor));
    if PageAt(OldestFirst, s, cursor, limit).hasMore {
      hide PageAt;
      var l := WalkOn(OldestFirst, s, i, cursor, limit, n);
      var tail := Walk(OldestFirst, _ => s, i + 1, Some(Cut(l)), limit, n - 1);
      assert sorted == sorted[..limit] + sorted[limit..];
      SameTail(sorted[..limit], tail, sorted[limit..]);
      MoreBehind(OldestFirst, s, cursor, limit);
      PageEndsSplit(sorted, limit, WholeMillisecond());
      if l.at % 1000 == 0 {
        assert Cut(l) == l;
        assert |Rest(OldestFirst, s, Some(l))| == |sorted| - limit;
        CommentsWalkIsCompleteIffWhole(s, i + 1, Some(l), limit, n - 1);
      } else {
        NextPageStartsEarly(s, i + 1, l, limit, n - 1);
        assert |sorted| > limit ==> Precedes(OldestFirst, sorted[limit - 1], sorted[limit]) by {
          SortPrecedes(OldestFirst, Rest(OldestFirst, s, cursor));
        }
        assert tail != sorted[limit..];
      }
    } else {
      LastWalk(OldestFirst, s, i, cursor, limit, n);
      NoMoreBehind(OldestFirst, s, cursor, limit);
      NoPageEnds(sorted, limit, WholeMillisecond());
    }
  }

  lemma MoreThanOnePage(o: Order, s: set<Row>, cursor: Option<Row>, limit: nat)
    requires |Rest(o, s, cursor)| > limit
    ensures PageAt(o, s, cursor, limit).hasMore
  {
  }

  lemma CutBeforeTheFirst(s: set<Row>)
    requires s != {} && First(OldestFirst, s).at % 1000 != 0
    ensures Rest(OldestFirst, s, Some(Cut(First(OldestFirst, s)))) == s
  {
    var f := First(OldestFirst, s);
    forall q | q in s ensures Precedes(OldestFirst, Cut(f), q) {
      assert q == f || q in s - {f};
    }
  }

  /** With one comment a page that never ends: the oldest comment comes back for ever. */
  lemma {:induction false} CommentWalkCanStall(s: set<Row>, i: nat, cursor: Option<Row>, n: nat)
    requires |s| >= 2 && First(OldestFirst, s).at % 1000 != 0
    requires cursor in {None, Some(Cut(First(OldestFirst, s)))}
    ensures Walk(OldestFirst, _ => s, i, cursor, 1, n) == seq(n, _ => First(OldestFirst, s))
    decreases n
  {
    hide PageAt, Precedes, First;
    var f := First(OldestFirst, s);
    if n > 0 {
      CutBeforeTheFirst(s);
      assert Rest(OldestFirst, s, cursor) == s;
      MoreThanOnePage(OldestFirst, s, cursor, 1);
      var l := WalkOn(OldestFirst, s, i, cursor, 1, n);
      assert Sort(OldestFirst, s)[..1] == [f];
      CommentWalkCanStall(s, i + 1, Some(Cut(f)), n - 1);
    }
  }
}
