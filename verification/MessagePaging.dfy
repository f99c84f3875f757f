/** The listing query of handleListMessages: newest `limit` rows of a filtered
    thread, returned in ascending order, plus the truncation report. */
module MessagePaging {
  import opened Prelude
  import opened MessageLog

  /** ORDER BY seq DESC LIMIT n, then reversed. */
  function Newest(rows: seq<Message>, limit: nat): seq<Message> {
    rows[Max(0, |rows| - limit)..]
  }

  function Page(ms: seq<Message>, q: Query, limit: nat): seq<Message> {
    Newest(Select(ms, q), limit)
  }

  ghost predicate Ascending(rows: seq<Message>) {
    forall i, j :: 0 <= i < j < |rows| ==> rows[i].num < rows[j].num
  }

  ghost predicate Contiguous(rows: seq<Message>) {
    forall i :: 0 <= i < |rows| ==> rows[i].num == rows[0].num + i
  }

  /** `q` asks for no more than `r`. */
  ghost predicate Narrower(q: Query, r: Query) {
    forall m :: Hits(q, m) ==> Hits(r, m)
  }

  lemma {:induction false} NarrowerSelectsFewer(ms: seq<Message>, q: Query, r: Query, x: Message)
    requires Narrower(q, r) && x in ms && Hits(r, x) && !Hits(q, x)
    ensures |Select(ms, q)| < |Select(ms, r)|
    decreases |ms|
  {
    var front, m := ms[..|ms| - 1], ms[|ms| - 1];
    if x in front {
      NarrowerSelectsFewer(front, q, r, x);
    } else {
      NarrowerSelectsNoMore(front, q, r);
    }
  }

  lemma {:induction false} NarrowerSelectsNoMore(ms: seq<Message>, q: Query, r: Query)
    requires Narrower(q, r)
    ensures |Select(ms, q)| <= |Select(ms, r)|
    decreases |ms|
  {
    if ms != [] {
      NarrowerSelectsNoMore(ms[..|ms| - 1], q, r);
    }
  }

  // ---- backward paging ----

  function Visible(t: Tid, cutoff: int, before: Option<int>): Query {
    Query(t, Some(cutoff), None, before)
  }

  /** What a client gets that pages backward until a page is empty, each time
      asking for what lies before the first number it was given, older pages placed first. */
  function AllPages(ms: seq<Message>, t: Tid, cutoff: int, before: Option<int>, limit: nat): seq<Message>
    decreases |Select(ms, Visible(t, cutoff, before))|
  {
    var page := Page(ms, Visible(t, cutoff, before), limit);
    if page == [] then []
    else
      var next := Visible(t, cutoff, Some(page[0].num));
      SelectMembers(ms, Visible(t, cutoff, before));
      assert page[0] in Select(ms, Visible(t, cutoff, before));
      NarrowerSelectsFewer(ms, next, Visible(t, cutoff, before), page[0]);
      AllPages(ms, t, cutoff, Some(page[0].num), limit) + page
  }

  /** Cutting an ascending selection at a number leaves its front. */
  lemma {:induction false} CutBefore(ms: seq<Message>, q: Query, b: int, k: nat)
    requires Ascending(Select(ms, q)) && k <= |Select(ms, q)|
    requires q.before.Some? ==> b <= q.before.value
    requires forall i :: 0 <= i < k ==> Select(ms, q)[i].num < b
    requires k < |Select(ms, q)| ==> Select(ms, q)[k].num >= b
    ensures Select(ms, q.(before := Some(b))) == Select(ms, q)[..k]
    decreases |ms|
  {
    if ms != [] {
      var front, m := ms[..|ms| - 1], ms[|ms| - 1];
      var r := Select(front, q);
      assert r == Select(ms, q)[..|r|];
      if Hits(q, m) {
        assert Select(ms, q)[|r|] == m;
      }
      if Hits(q, m) && k == |r| + 1 {
        CutBefore(front, q, b, k - 1);
      } else {
        assert Hits(q, m) && k < |r| ==> Select(ms, q)[k].num < m.num;
        CutBefore(front, q, b, k);
      }
    }
  }

  lemma {:induction false} CutAfter(ms: seq<Message>, q: Query, a: int, k: nat)
    requires Ascending(Select(ms, q)) && k <= |Select(ms, q)| && q.after.None?
    requires forall i :: 0 <= i < k ==> Select(ms, q)[i].num <= a
    requires k < |Select(ms, q)| ==> Select(ms, q)[k].num > a
    ensures Select(ms, q.(after := Some(a))) == Select(ms, q)[k..]
    decreases |ms|
  {
    if ms != [] {
      var front, m := ms[..|ms| - 1], ms[|ms| - 1];
      var rows, r := Select(ms, q), Select(front, q);
      assert r == rows[..|r|];
      if !Hits(q, m) {
        CutAfter(front, q, a, k);
      } else if k == |r| + 1 {
        assert rows[|r|] == m && m.num <= a;
        CutAfter(front, q, a, k - 1);
      } else {
        assert rows[|r|] == m && rows[k].num <= m.num;
        CutAfter(front, q, a, k);
        assert rows[k..] == r[k..] + [m];
      }
    }
  }

  lemma {:induction false} PagesRebuildTheSelection(ms: seq<Message>, t: Tid, cutoff: int, before: Option<int>, limit: nat)
    requires limit >= 1 && Ascending(Select(ms, Visible(t, cutoff, before)))
    ensures AllPages(ms, t, cutoff, before, limit) == Select(ms, Visible(t, cutoff, before))
    decreases |Select(ms, Visible(t, cutoff, before))|
  {
    hide Select;
    var rows := Select(ms, Visible(t, cutoff, before));
    if rows != [] {
      var k := Max(0, |rows| - limit);
      NextPageIsTheFront(ms, t, cutoff, before, k);
      PagesRebuildTheSelection(ms, t, cutoff, Some(rows[k].num), limit);
    }
  }

  lemma NextPageIsTheFront(ms: seq<Message>, t: Tid, cutoff: int, before: Option<int>, k: nat)
    requires Ascending(Select(ms, Visible(t, cutoff, before))) && k < |Select(ms, Visible(t, cutoff, before))|
    ensures var rows := Select(ms, Visible(t, cutoff, before));
      Select(ms, Visible(t, cutoff, Some(rows[k].num))) == rows[..k] && Ascending(rows[..k])
  {
    var rows := Select(ms, Visible(t, cutoff, before));
    SelectMembers(ms, Visible(t, cutoff, before));
    assert rows[k] in rows;
    CutBefore(ms, Visible(t, cutoff, before), rows[k].num, k);
  }

  /** What is visible of a thread is a block of consecutive numbers ending at last_seq. */
  lemma VisibleIsABlock(db: Db, clock: int, t: Tid, cutoff: int)
    requires Inv(db, clock) && t in db.threads
    ensures BlockEndingAt(Select(db.messages, Visible(t, cutoff, None)), db.threads[t].lastSeq)
  {
    SinceIsASuffix(db.messages, t, cutoff);
    SuffixOfBlock(RowsOf(db.messages, t), Select(db.messages, Visible(t, cutoff, None)), db.threads[t].lastSeq);
  }

  /** Backward paging is complete: in every reachable table, for a fixed cutoff
      and any page size, the pages joined are exactly the visible log. */
  lemma BackwardPagingIsComplete(db: Db, clock: int, t: Tid, cutoff: int, limit: nat)
    requires Inv(db, clock) && t in db.threads && limit >= 1
    ensures AllPages(db.messages, t, cutoff, None, limit) == Select(db.messages, Visible(t, cutoff, None))
  {
    VisibleIsABlock(db, clock, t, cutoff);
    PagesRebuildTheSelection(db.messages, t, cutoff, None, limit);
  }

  /** Bounds cut a slice out of a block. */
  lemma BoundsCutASlice(ms: seq<Message>, t: Tid, cutoff: int, last: nat, after: Option<int>, before: Option<int>) returns (i: nat, j: nat)
    requires BlockEndingAt(Select(ms, Visible(t, cutoff, None)), last)
    ensures i <= j <= |Select(ms, Visible(t, cutoff, None))|
    ensures Select(ms, Query(t, Some(cutoff), after, before)) == Select(ms, Visible(t, cutoff, None))[i..j]
  {
    var vis := Select(ms, Visible(t, cutoff, None));
    var first := last - |vis| + 1;
    i, j := 0, |vis|;
    if before.Some? {
      j := Min(Max(before.value - first, 0), |vis|);
      CutBefore(ms, Visible(t, cutoff, None), before.value, j);
      assert Select(ms, Visible(t, cutoff, before)) == vis[..j];
    }
    if after.Some? {
      i := Min(Max(after.value + 1 - first, 0), j);
      CutAfter(ms, Visible(t, cutoff, before), after.value, i);
    }
  }

  /** Each page, whatever the bounds, is a run of consecutive numbers in ascending order. */
  lemma PagesAreContiguous(db: Db, clock: int, t: Tid, cutoff: int, after: Option<int>, before: Option<int>, limit: nat)
    requires Inv(db, clock) && t in db.threads
    ensures Contiguous(Page(db.messages, Query(t, Some(cutoff), after, before), limit))
    ensures |Page(db.messages, Query(t, Some(cutoff), after, before), limit)| <= limit
  {
    VisibleIsABlock(db, clock, t, cutoff);
    var i, j := BoundsCutASlice(db.messages, t, cutoff, db.threads[t].lastSeq, after, before);
    SliceIsContiguous(Select(db.messages, Visible(t, cutoff, None)), db.threads[t].lastSeq, i, j, limit);
  }

  lemma SliceIsContiguous(vis: seq<Message>, last: nat, i: nat, j: nat, limit: nat)
    requires BlockEndingAt(vis, last) && i <= j <= |vis|
    ensures Contiguous(Newest(vis[i..j], limit)) && |Newest(vis[i..j], limit)| <= limit
  {
  }

  /** Forward sync with afterSeq does not page: the query takes the newest rows
      past `a`, so its answer continues at a + 1 exactly when everything past `a` fits in one page. */
  lemma ForwardPageContinuesOnlyIfAllFits(db: Db, clock: int, t: Tid, cutoff: int, a: int, limit: nat)
    requires Inv(db, clock) && t in db.threads && limit >= 1
    requires var vis := Select(db.messages, Visible(t, cutoff, None)); vis != [] && vis[0].num - 1 <= a < db.threads[t].lastSeq
    ensures var page := Page(db.messages, Query(t, Some(cutoff), Some(a), None), limit);
      page != [] && page[|page| - 1].num == db.threads[t].lastSeq
      && (page[0].num == a + 1 <==> db.threads[t].lastSeq - a <= limit)
  {
    VisibleIsABlock(db, clock, t, cutoff);
    var vis := Select(db.messages, Visible(t, cutoff, None));
    CutAfter(db.messages, Visible(t, cutoff, None), a, a + 1 - vis[0].num);
  }

  // ---- paging while the table changes ----

  /** A retention pass that deletes nothing newer than the cutoff is invisible to the query. */
  lemma {:induction false} PurgeIsInvisible(ms: seq<Message>, mc: int, oc: int, q: Query)
    requires q.since.Some? && (if q.thread.kind.MatchThread? then mc else oc) <= q.since.value
    ensures Select(Purge(ms, mc, oc), q) == Select(ms, q)
    decreases |ms|
  {
    if ms != [] {
      var front, m := ms[..|ms| - 1], ms[|ms| - 1];
      PurgeIsInvisible(front, mc, oc, q);
      SelectAppend(Purge(front, mc, oc), m, q);
    }
  }

  predicate PurgesOnly(e: Timed, t: Tid, cutoff: int) {
    e.ev.RunRetention? ==> e.now - (if t.kind.MatchThread? then e.ev.matchDays else e.ev.orderDays) * DAY <= cutoff
  }

  lemma ThreadsStay(db: Db, e: Timed, t: Tid)
    requires t in db.threads
    ensures t in Step(db, e).0.threads && db.threads[t].lastSeq <= Step(db, e).0.threads[t].lastSeq
  {
  }

  lemma StepLeavesOlderPages(db: Db, e: Timed, t: Tid, cutoff: int, b: int)
    requires t in db.threads && b <= db.threads[t].lastSeq + 1 && PurgesOnly(e, t, cutoff)
    ensures Select(Step(db, e).0.messages, Visible(t, cutoff, Some(b))) == Select(db.messages, Visible(t, cutoff, Some(b)))
  {
    if e.ev.RunRetention? {
      var mc, oc := e.now - e.ev.matchDays * DAY, e.now - e.ev.orderDays * DAY;
      assert Step(db, e).0.messages == Purge(db.messages, mc, oc);
      PurgeIsInvisible(db.messages, mc, oc, Visible(t, cutoff, Some(b)));
    } else if e.ev.SendMessage? {
      assert Step(db, e) == Send(db, e.now, e.ev.draft);
      SendLeavesOlderPages(db, e.now, e.ev.draft, t, cutoff, b);
    } else {
      assert Step(db, e).0.messages == db.messages;
    }
  }

  lemma SendLeavesOlderPages(db: Db, now: int, d: Draft, t: Tid, cutoff: int, b: int)
    requires t in db.threads && b <= db.threads[t].lastSeq + 1
    ensures Select(Send(db, now, d).0.messages, Visible(t, cutoff, Some(b))) == Select(db.messages, Visible(t, cutoff, Some(b)))
  {
    if Send(db, now, d).0 != db {
      SelectAppend(db.messages, MessageOf(db, now, d), Visible(t, cutoff, Some(b)));
    }
  }

  /** A page before `b` is the same after any later sends, reads, freezes and
      retention passes not reaching the cutoff: a client may page while others write. */
  lemma {:induction false} OlderPagesAreStable(db: Db, es: seq<Timed>, t: Tid, cutoff: int, b: int, limit: nat)
    requires t in db.threads && b <= db.threads[t].lastSeq + 1
    requires forall i :: 0 <= i < |es| ==> PurgesOnly(es[i], t, cutoff)
    ensures t in Run(db, es).threads && db.threads[t].lastSeq <= Run(db, es).threads[t].lastSeq
    ensures Select(Run(db, es).messages, Visible(t, cutoff, Some(b))) == Select(db.messages, Visible(t, cutoff, Some(b)))
    ensures Page(Run(db, es).messages, Visible(t, cutoff, Some(b)), limit) == Page(db.messages, Visible(t, cutoff, Some(b)), limit)
    decreases |es|
  {
    if es != [] {
      OlderPagesAreStable(db, es[..|es| - 1], t, cutoff, b, limit);
      ThreadsStay(Run(db, es[..|es| - 1]), es[|es| - 1], t);
      StepLeavesOlderPages(Run(db, es[..|es| - 1]), es[|es| - 1], t, cutoff, b);
    }
  }

  // ---- the truncation report ----

  /** coalesce(min(seq), 0). */
  function MinSeq(rows: seq<Message>): int {
    if rows == [] then 0
    else if |rows| == 1 then rows[0].num
    else Min(MinSeq(rows[..|rows| - 1]), rows[|rows| - 1].num)
  }

  predicate Truncated(lastSeq: int, minSeq: int) {
    lastSeq > 0 && minSeq > 1
  }

  lemma {:induction false} MinSeqOfBlock(rows: seq<Message>, last: nat)
    requires BlockEndingAt(rows, last) && rows != []
    ensures MinSeq(rows) == last - |rows| + 1
    decreases |rows|
  {
    if |rows| > 1 {
      MinSeqOfBlock(rows[..|rows| - 1], last - 1);
    }
  }

  /** The report says "truncated" exactly when something, but not everything ever
      sent, is visible; with every message expired it stays silent. */
  lemma TruncationReportIsExact(db: Db, clock: int, t: Tid, cutoff: int)
    requires Inv(db, clock) && t in db.threads
    ensures var vis := Select(db.messages, Visible(t, cutoff, None));
      Truncated(db.threads[t].lastSeq, MinSeq(vis)) <==> 0 < |vis| < db.threads[t].lastSeq
  {
    VisibleIsABlock(db, clock, t, cutoff);
    var vis := Select(db.messages, Visible(t, cutoff, None));
    if vis != [] {
      MinSeqOfBlock(vis, db.threads[t].lastSeq);
    }
  }

  // ---- the listing, row by row ----

  /** In the thread, not created before `since`, and between the bounds the client gave. */
  predicate Asked(m: Message, t: Tid, since: int, after: Option<int>, before: Option<int>) {
    && m.thread == t && since <= m.createdAt
    && (after.Some? ==> after.value < m.num) && (before.Some? ==> m.num < before.value)
  }

  /** A page holds only rows that were asked for, no more than its limit, and leaves out only
      rows numbered below all of its own, and those only when it is full. */
  lemma PageMeans(db: Db, clock: int, t: Tid, since: int, after: Option<int>, before: Option<int>, limit: nat)
    requires Inv(db, clock) && t in db.threads
    ensures var page := Page(db.messages, Query(t, Some(since), after, before), limit);
      && |page| <= limit
      && (forall m :: m in page ==> m in db.messages && Asked(m, t, since, after, before))
      && (forall m :: m in db.messages && Asked(m, t, since, after, before) && m !in page ==>
            |page| == limit && forall p :: p in page ==> m.num < p.num)
  {
    var q := Query(t, Some(since), after, before);
    SelectMembers(db.messages, q);
    SelectionAscends(db, clock, t, since, after, before);
    hide Select, Newest, Ascending, Inv;
    NewestMeans(Select(db.messages, q), limit);
  }

  lemma SelectionAscends(db: Db, clock: int, t: Tid, since: int, after: Option<int>, before: Option<int>)
    requires Inv(db, clock) && t in db.threads
    ensures Ascending(Select(db.messages, Query(t, Some(since), after, before)))
  {
    VisibleIsABlock(db, clock, t, since);
    var i, j := BoundsCutASlice(db.messages, t, since, db.threads[t].lastSeq, after, before);
    hide Select, Inv;
    var vis := Select(db.messages, Visible(t, since, None));
    forall x, y | 0 <= x < y < j - i ensures vis[i..j][x].num < vis[i..j][y].num {
      assert vis[i..j][x] == vis[i + x] && vis[i..j][y] == vis[i + y];
    }
  }

  lemma NewestMeans(rows: seq<Message>, limit: nat)
    requires Ascending(rows)
    ensures var page := Newest(rows, limit);
      && |page| <= limit && (forall m :: m in page ==> m in rows)
      && (forall m :: m in rows && m !in page ==> |page| == limit && forall p :: p in page ==> m.num < p.num)
  {
    var k, page := Max(0, |rows| - limit), Newest(rows, limit);
    assert rows == rows[..k] + page;
    forall m, p | m in rows[..k] && p in page ensures m.num < p.num {
      var x :| 0 <= x < k && rows[..k][x] == m;
      var y :| 0 <= y < |page| && page[y] == p;
      assert rows[x] == m && rows[k + y] == p;
    }
    assert rows[..k] != [] ==> k > 0;
  }
}
