/** The chat tables: sequence allocation, idempotent send, read cursors, the
    listing query and retention. Every handler is one transaction. */
module MessageLog {
  import opened Prelude

  type User = nat
  type ClientId = nat

  datatype Kind = MatchThread | OrderThread

  /** match_session_id and order_id are unique, so kind and key name a thread. */
  datatype Tid = Tid(kind: Kind, key: nat)

  datatype ThreadStatus = Active | Frozen | Closed

  datatype Thread = Thread(status: ThreadStatus, lastSeq: nat, retentionDays: int)

  datatype Message = Message(id: nat, thread: Tid, sender: User, clientId: ClientId, num: int,
                             kind: string, content: string, createdAt: int)

  /** `messages` is the table in insertion order; `nextId` supplies unused row ids. */
  datatype Db = Db(threads: map<Tid, Thread>, cursors: map<(Tid, User), nat>, messages: seq<Message>, nextId: nat)

  const DAY := 86_400_000_000

  // ---- queries ----

  /** The WHERE clauses of the listing query; an absent bound is no condition. */
  datatype Query = Query(thread: Tid, since: Option<int>, after: Option<int>, before: Option<int>)

  predicate Hits(q: Query, m: Message) {
    && m.thread == q.thread
    && (q.since.Some? ==> m.createdAt >= q.since.value)
    && (q.after.Some? ==> m.num > q.after.value)
    && (q.before.Some? ==> m.num < q.before.value)
  }

  function Select(ms: seq<Message>, q: Query): (r: seq<Message>)
    ensures |r| <= |ms|
  {
    if ms == [] then []
    else
      var r := Select(ms[..|ms| - 1], q);
      if Hits(q, ms[|ms| - 1]) then r + [ms[|ms| - 1]] else r
  }

  lemma {:induction false} SelectMembers(ms: seq<Message>, q: Query)
    ensures forall m :: m in Select(ms, q) <==> m in ms && Hits(q, m)
    decreases |ms|
  {
    if ms != [] {
      SelectMembers(ms[..|ms| - 1], q);
      assert ms == ms[..|ms| - 1] + [ms[|ms| - 1]];
    }
  }

  function RowsOf(ms: seq<Message>, t: Tid): seq<Message> {
    Select(ms, Query(t, None, None, None))
  }

  function Find(ms: seq<Message>, sender: User, clientId: ClientId): (r: Option<Message>)
    ensures r.Some? ==> r.value in ms && r.value.sender == sender && r.value.clientId == clientId
    ensures r.None? ==> forall m :: m in ms ==> m.sender != sender || m.clientId != clientId
  {
    if ms == [] then None
    else if ms[0].sender == sender && ms[0].clientId == clientId then Some(ms[0])
    else Find(ms[1..], sender, clientId)
  }

  // ---- handlers ----

  datatype Reply = Accepted(id: nat, num: int, createdAt: int) | Done | BadRequest | RateLimited | Forbidden | ThreadInactive | ServerError

  /** `limited` is the verdict of the two rate limiters and `failing` says that the
      insert or the commit fails, which rolls the transaction back. */
  datatype Draft = Draft(sender: User, thread: Tid, clientId: ClientId, kind: string, content: string, limited: bool, failing: bool)

  predicate KnownKind(kind: string) {
    kind == "text" || kind == "image" || kind == "system" || kind == "order_event"
  }

  function AcceptedAs(m: Message): Reply {
    Accepted(m.id, m.num, m.createdAt)
  }

  function MessageOf(db: Db, now: int, d: Draft): Message
    requires d.thread in db.threads
  {
    Message(db.nextId, d.thread, d.sender, d.clientId, db.threads[d.thread].lastSeq + 1, d.kind, d.content, now)
  }

  function Appended(db: Db, now: int, d: Draft): Db
    requires d.thread in db.threads
  {
    var th := db.threads[d.thread];
    db.(threads := db.threads[d.thread := th.(lastSeq := th.lastSeq + 1)],
        messages := db.messages + [MessageOf(db, now, d)],
        nextId := db.nextId + 1)
  }

  function Send(db: Db, now: int, d: Draft): (Db, Reply) {
    if !KnownKind(d.kind) then (db, BadRequest)
    else if d.limited then (db, RateLimited)
    else
      var existing := Find(db.messages, d.sender, d.clientId);
      if existing.Some? then (db, AcceptedAs(existing.value))
      else if d.thread !in db.threads || (d.thread, d.sender) !in db.cursors then (db, Forbidden)
      else if !db.threads[d.thread].status.Active? then (db, ThreadInactive)
      else if d.failing then (db, ServerError)
      else (Appended(db, now, d), AcceptedAs(MessageOf(db, now, d)))
  }

  function ReadUpTo(db: Db, user: User, t: Tid, upTo: int): (Db, Reply) {
    if upTo < 0 then (db, BadRequest)
    else if (t, user) !in db.cursors then (db, Forbidden)
    else (db.(cursors := db.cursors[(t, user) := Max(db.cursors[(t, user)], upTo)]), Done)
  }

  function DefaultRetention(kind: Kind): int {
    if kind.OrderThread? then 180 else 14
  }

  datatype Member = Member(user: User, role: string)

  predicate KnownRole(role: string) {
    role == "traveler" || role == "host"
  }

  /** INSERT ... ON CONFLICT DO NOTHING, one member after the other. */
  function WithMembers(cursors: map<(Tid, User), nat>, t: Tid, members: seq<Member>): map<(Tid, User), nat> {
    if members == [] then cursors
    else
      var c := WithMembers(cursors, t, members[..|members| - 1]);
      var key := (t, members[|members| - 1].user);
      if key in c then c else c[key := 0]
  }

  /** Joining never moves a cursor, and makes exactly the listed users members. */
  lemma {:induction false} JoiningKeepsCursors(cursors: map<(Tid, User), nat>, t: Tid, members: seq<Member>, key: (Tid, User))
    ensures key in WithMembers(cursors, t, members) <==> key in cursors || (key.0 == t && exists m :: m in members && m.user == key.1)
    ensures key in WithMembers(cursors, t, members) ==>
      WithMembers(cursors, t, members)[key] == if key in cursors then cursors[key] else 0
    decreases |members|
  {
    if members != [] {
      JoiningKeepsCursors(cursors, t, members[..|members| - 1], key);
      assert members == members[..|members| - 1] + [members[|members| - 1]];
    }
  }

  /** Creates the thread unless it exists, and every membership that does not
      exist; an invalid member rolls everything back. */
  function Ensure(db: Db, actor: User, t: Tid, members: seq<Member>): (Db, Reply) {
    if |members| < 2 then (db, BadRequest)
    else if forall m :: m in members ==> m.user != actor then (db, Forbidden)
    else if exists m :: m in members && !KnownRole(m.role) then (db, BadRequest)
    else
      (db.(threads := if t in db.threads then db.threads else db.threads[t := Thread(Active, 0, DefaultRetention(t.kind))],
           cursors := WithMembers(db.cursors, t, members)), Done)
  }

  function Purge(ms: seq<Message>, matchCutoff: int, orderCutoff: int): (r: seq<Message>)
    ensures |r| <= |ms|
    ensures forall m :: m in r <==> m in ms && m.createdAt >= if m.thread.kind.MatchThread? then matchCutoff else orderCutoff
  {
    if ms == [] then []
    else
      var r := Purge(ms[..|ms| - 1], matchCutoff, orderCutoff);
      var m := ms[|ms| - 1];
      if m.createdAt >= (if m.thread.kind.MatchThread? then matchCutoff else orderCutoff) then r + [m] else r
  }

  function DeleteOlder(ms: seq<Message>, kind: Kind, cutoff: int): seq<Message> {
    if ms == [] then []
    else
      var r := DeleteOlder(ms[..|ms| - 1], kind, cutoff);
      var m := ms[|ms| - 1];
      if m.thread.kind == kind && m.createdAt < cutoff then r else r + [m]
  }

  lemma {:induction false} TwoDeletesArePurge(ms: seq<Message>, mc: int, oc: int)
    ensures DeleteOlder(DeleteOlder(ms, MatchThread, mc), OrderThread, oc) == Purge(ms, mc, oc)
    decreases |ms|
  {
    if ms != [] {
      var front, m := ms[..|ms| - 1], ms[|ms| - 1];
      TwoDeletesArePurge(front, mc, oc);
      var r := DeleteOlder(front, MatchThread, mc);
      assert (r + [m])[..|r|] == r;
    }
  }

  function Retain(db: Db, now: int, matchDays: int, orderDays: int): Db {
    db.(messages := Purge(db.messages, now - matchDays * DAY, now - orderDays * DAY))
  }

  /** SetStatus stands for whoever freezes or closes a thread; nothing in these services does. */
  datatype Event =
    | SendMessage(draft: Draft)
    | ReadThread(user: User, thread: Tid, upTo: int)
    | EnsureThread(actor: User, thread: Tid, members: seq<Member>)
    | SetStatus(thread: Tid, status: ThreadStatus)
    | RunRetention(matchDays: int, orderDays: int)

  datatype Timed = At(now: int, ev: Event)

  function Step(db: Db, e: Timed): (Db, Reply) {
    match e.ev
    case SendMessage(d) => Send(db, e.now, d)
    case ReadThread(user, t, upTo) => ReadUpTo(db, user, t, upTo)
    case EnsureThread(actor, t, members) => Ensure(db, actor, t, members)
    case SetStatus(t, status) =>
      (if t in db.threads then db.(threads := db.threads[t := db.threads[t].(status := status)]) else db, Done)
    case RunRetention(m, o) => (Retain(db, e.now, m, o), Done)
  }

  function Run(db: Db, es: seq<Timed>): Db {
    if es == [] then db else Step(Run(db, es[..|es| - 1]), es[|es| - 1]).0
  }

  ghost predicate Ordered(es: seq<Timed>, from: int) {
    && (forall i :: 0 <= i < |es| ==> from <= es[i].now)
    && (forall i, j :: 0 <= i <= j < |es| ==> es[i].now <= es[j].now)
  }

  const EMPTY := Db(map[], map[], [], 0)

  // ---- the invariant ----

  ghost predicate Chronological(ms: seq<Message>) {
    forall i, j :: 0 <= i <= j < |ms| ==> ms[i].createdAt <= ms[j].createdAt
  }

  /** A block of consecutive sequence numbers ending at `last`. */
  ghost predicate BlockEndingAt(rows: seq<Message>, last: nat) {
    |rows| <= last && forall i :: 0 <= i < |rows| ==> rows[i].num == last - |rows| + 1 + i
  }

  ghost predicate KnownRows(db: Db, clock: int) {
    forall m :: m in db.messages ==> m.createdAt <= clock && m.thread in db.threads && m.id < db.nextId
  }

  /** The primary key and the unique index on (sender_id, client_msg_id). */
  ghost predicate OneRowPerKey(ms: seq<Message>) {
    && (forall m, n :: m in ms && n in ms && m.id == n.id ==> m == n)
    && (forall m, n :: m in ms && n in ms && m.sender == n.sender && m.clientId == n.clientId ==> m == n)
  }

  ghost predicate Blocks(db: Db) {
    forall t :: t in db.threads ==> BlockEndingAt(RowsOf(db.messages, t), db.threads[t].lastSeq)
  }

  ghost predicate Inv(db: Db, clock: int) {
    Chronological(db.messages) && KnownRows(db, clock) && OneRowPerKey(db.messages) && Blocks(db)
  }

  lemma {:induction false} SelectAppend(ms: seq<Message>, m: Message, q: Query)
    ensures Select(ms + [m], q) == Select(ms, q) + if Hits(q, m) then [m] else []
  {
    assert (ms + [m])[..|ms|] == ms;
  }

  lemma {:induction false} SelectNothing(ms: seq<Message>, q: Query)
    requires forall m :: m in ms ==> !Hits(q, m)
    ensures Select(ms, q) == []
    decreases |ms|
  {
    if ms != [] {
      SelectNothing(ms[..|ms| - 1], q);
    }
  }

  /** Purging a table is, seen from one thread, one more WHERE clause. */
  lemma {:induction false} PurgeIsSince(ms: seq<Message>, mc: int, oc: int, t: Tid)
    ensures RowsOf(Purge(ms, mc, oc), t) == Select(ms, Query(t, Some(if t.kind.MatchThread? then mc else oc), None, None))
    decreases |ms|
  {
    if ms != [] {
      var front, m := ms[..|ms| - 1], ms[|ms| - 1];
      PurgeIsSince(front, mc, oc, t);
      SelectAppend(Purge(front, mc, oc), m, Query(t, None, None, None));
    }
  }

  /** In a chronological table, "created since" selects the end of what is selected without it. */
  lemma {:induction false} SinceIsASuffix(ms: seq<Message>, t: Tid, since: int)
    requires Chronological(ms)
    ensures var r := Select(ms, Query(t, Some(since), None, None));
      |r| <= |RowsOf(ms, t)| && r == RowsOf(ms, t)[|RowsOf(ms, t)| - |r|..]
    decreases |ms|
  {
    if ms != [] {
      var front, m := ms[..|ms| - 1], ms[|ms| - 1];
      SinceIsASuffix(front, t, since);
      if m.createdAt < since {
        forall x | x in ms ensures x.createdAt < since {
          var i :| 0 <= i < |ms| && ms[i] == x;
          assert ms[i].createdAt <= ms[|ms| - 1].createdAt;
        }
        SelectNothing(ms, Query(t, Some(since), None, None));
      }
    }
  }

  lemma {:induction false} PurgeIsChronological(ms: seq<Message>, mc: int, oc: int)
    requires Chronological(ms)
    ensures Chronological(Purge(ms, mc, oc))
    decreases |ms|
  {
    if ms != [] {
      var front, m := ms[..|ms| - 1], ms[|ms| - 1];
      PurgeIsChronological(front, mc, oc);
      var r := Purge(front, mc, oc);
      forall x | x in r ensures x.createdAt <= m.createdAt {
        var i :| 0 <= i < |front| && front[i] == x;
        assert ms[i].createdAt <= ms[|ms| - 1].createdAt;
      }
    }
  }

  lemma SuffixOfBlock(rows: seq<Message>, r: seq<Message>, last: nat)
    requires BlockEndingAt(rows, last) && |r| <= |rows| && r == rows[|rows| - |r|..]
    ensures BlockEndingAt(r, last)
  {
  }

  lemma PurgedBlock(ms: seq<Message>, mc: int, oc: int, t: Tid, last: nat)
    requires Chronological(ms) && BlockEndingAt(RowsOf(ms, t), last)
    ensures BlockEndingAt(RowsOf(Purge(ms, mc, oc), t), last)
  {
    var cut := if t.kind.MatchThread? then mc else oc;
    PurgeIsSince(ms, mc, oc, t);
    SinceIsASuffix(ms, t, cut);
    SuffixOfBlock(RowsOf(ms, t), Select(ms, Query(t, Some(cut), None, None)), last);
  }

  lemma RetainKeepsBlocks(db: Db, mc: int, oc: int)
    requires Chronological(db.messages) && Blocks(db)
    ensures Blocks(db.(messages := Purge(db.messages, mc, oc)))
  {
    forall t | t in db.threads ensures BlockEndingAt(RowsOf(Purge(db.messages, mc, oc), t), db.threads[t].lastSeq) {
      PurgedBlock(db.messages, mc, oc, t, db.threads[t].lastSeq);
    }
  }

  lemma PurgeKeepsRows(db: Db, clock: int, mc: int, oc: int)
    requires KnownRows(db, clock)
    ensures KnownRows(db.(messages := Purge(db.messages, mc, oc)), clock)
  {
  }

  lemma PurgeKeepsKeys(ms: seq<Message>, mc: int, oc: int)
    requires OneRowPerKey(ms)
    ensures OneRowPerKey(Purge(ms, mc, oc))
  {
  }

  lemma PurgeKeepsInv(db: Db, clock: int, mc: int, oc: int)
    requires Inv(db, clock)
    ensures Inv(db.(messages := Purge(db.messages, mc, oc)), clock)
  {
    PurgeIsChronological(db.messages, mc, oc);
    PurgeKeepsRows(db, clock, mc, oc);
    RetainKeepsBlocks(db, mc, oc);
    PurgeKeepsKeys(db.messages, mc, oc);
  }

  /** The duplicate-key fallback of the insert is never needed: the lookup before it has found the row. */
  lemma AppendKeepsKeys(db: Db, clock: int, now: int, d: Draft)
    requires KnownRows(db, clock) && OneRowPerKey(db.messages)
    requires d.thread in db.threads && Find(db.messages, d.sender, d.clientId).None?
    ensures OneRowPerKey(Appended(db, now, d).messages)
  {
  }

  lemma AppendKeepsBlocks(db: Db, now: int, d: Draft)
    requires Blocks(db) && d.thread in db.threads
    ensures Blocks(Appended(db, now, d))
  {
    var m, db' := MessageOf(db, now, d), Appended(db, now, d);
    forall t | t in db'.threads ensures BlockEndingAt(RowsOf(db'.messages, t), db'.threads[t].lastSeq) {
      SelectAppend(db.messages, m, Query(t, None, None, None));
      assert BlockEndingAt(RowsOf(db.messages, t), db.threads[t].lastSeq);
    }
  }

  lemma AppendKeepsInv(db: Db, clock: int, now: int, d: Draft)
    requires Inv(db, clock) && clock <= now && d.thread in db.threads && Find(db.messages, d.sender, d.clientId).None?
    ensures Inv(Appended(db, now, d), now)
  {
    AppendKeepsKeys(db, clock, now, d);
    AppendKeepsBlocks(db, now, d);
    assert Chronological(Appended(db, now, d).messages);
  }

  lemma EnsureKeepsInv(db: Db, clock: int, actor: User, t: Tid, members: seq<Member>)
    requires Inv(db, clock)
    ensures Inv(Ensure(db, actor, t, members).0, clock)
  {
    if t !in db.threads {
      SelectNothing(db.messages, Query(t, None, None, None));
    }
  }

  lemma SendKeepsInv(db: Db, clock: int, now: int, d: Draft)
    requires Inv(db, clock) && clock <= now
    ensures Inv(Send(db, now, d).0, now)
  {
    if Send(db, now, d).0 != db {
      AppendKeepsInv(db, clock, now, d);
    }
  }

  lemma LaterClock(db: Db, clock: int, now: int)
    requires Inv(db, clock) && clock <= now
    ensures Inv(db, now)
  {
  }

  lemma StatusKeepsInv(db: Db, clock: int, t: Tid, status: ThreadStatus)
    requires Inv(db, clock) && t in db.threads
    ensures Inv(db.(threads := db.threads[t := db.threads[t].(status := status)]), clock)
  {
  }

  lemma CursorsDoNotMatter(db: Db, clock: int, cursors: map<(Tid, User), nat>)
    requires Inv(db, clock)
    ensures Inv(db.(cursors := cursors), clock)
  {
  }

  lemma StepKeepsInv(db: Db, clock: int, e: Timed)
    requires Inv(db, clock) && clock <= e.now
    ensures Inv(Step(db, e).0, e.now)
  {
    hide Inv;
    assert Inv(db, e.now) by { LaterClock(db, clock, e.now); }
    match e.ev
    case SendMessage(d) =>
      assert Step(db, e) == Send(db, e.now, d);
      SendKeepsInv(db, clock, e.now, d);
    case EnsureThread(actor, t, members) =>
      assert Step(db, e) == Ensure(db, actor, t, members);
      EnsureKeepsInv(db, e.now, actor, t, members);
    case RunRetention(m, o) =>
      assert Step(db, e).0 == Retain(db, e.now, m, o);
      PurgeKeepsInv(db, e.now, e.now - m * DAY, e.now - o * DAY);
    case SetStatus(t, status) =>
      if t in db.threads {
        StatusKeepsInv(db, e.now, t, status);
      }
    case ReadThread(user, t, upTo) =>
      assert Step(db, e).0 == db.(cursors := Step(db, e).0.cursors);
      CursorsDoNotMatter(db, e.now, Step(db, e).0.cursors);
  }

  lemma {:induction false} RunKeepsInv(db: Db, clock: int, es: seq<Timed>)
    requires Inv(db, clock) && Ordered(es, clock)
    ensures Inv(Run(db, es), if es == [] then clock else es[|es| - 1].now)
    decreases |es|
  {
    if es != [] {
      var k := |es| - 1;
      RunKeepsInv(db, clock, es[..k]);
      StepKeepsInv(Run(db, es[..k]), if k == 0 then clock else es[k - 1].now, es[k]);
    }
  }

  // ---- gap-free sequence numbers ----

  /** The number a transaction handed out in thread t, read off the reply to a send that added a row. */
  function Handed(db: Db, e: Timed, t: Tid): seq<int> {
    var (after, reply) := Step(db, e);
    if e.ev.SendMessage? && e.ev.draft.thread == t && reply.Accepted? && |after.messages| > |db.messages| then [reply.num] else []
  }

  /** All numbers handed out in thread t, in order. */
  function Assigned(db: Db, es: seq<Timed>, t: Tid): seq<int> {
    if es == [] then []
    else Assigned(db, es[..|es| - 1], t) + Handed(Run(db, es[..|es| - 1]), es[|es| - 1], t)
  }

  lemma StepHandsOutTheNext(db: Db, e: Timed, t: Tid)
    ensures Handed(db, e, t) == if LastSeq(Step(db, e).0, t) == LastSeq(db, t) then [] else [LastSeq(db, t) + 1]
    ensures LastSeq(Step(db, e).0, t) == LastSeq(db, t) + |Handed(db, e, t)|
  {
  }

  function UpTo(n: nat): seq<int> {
    seq(n, i => i + 1)
  }

  function LastSeq(db: Db, t: Tid): nat {
    if t in db.threads then db.threads[t].lastSeq else 0
  }

  /** Whatever the interleaving of sends, retries, failures, reads, freezes and
      retention, the numbers ever assigned in a thread are 1, 2, ..., last_seq, each once and in order. */
  lemma {:induction false} SequenceHasNoGaps(es: seq<Timed>, t: Tid)
    ensures Assigned(EMPTY, es, t) == UpTo(LastSeq(Run(EMPTY, es), t))
    decreases |es|
  {
    hide Step, Handed;
    if es != [] {
      var k := |es| - 1;
      SequenceHasNoGaps(es[..k], t);
      StepHandsOutTheNext(Run(EMPTY, es[..k]), es[k], t);
    }
  }

  /** With a nondecreasing clock, what is stored of a thread is always a contiguous
      suffix of what was ever assigned: some floor, and every number above it exactly once. */
  lemma StoredIsASuffix(es: seq<Timed>, from: int, t: Tid)
    requires Ordered(es, from) && t in Run(EMPTY, es).threads
    ensures var rows := RowsOf(Run(EMPTY, es).messages, t); var all := Assigned(EMPTY, es, t);
      |rows| <= |all| && forall i :: 0 <= i < |rows| ==> rows[i].num == all[|all| - |rows| + i]
  {
    assert Inv(EMPTY, from);
    RunKeepsInv(EMPTY, from, es);
    SequenceHasNoGaps(es, t);
    assert BlockEndingAt(RowsOf(Run(EMPTY, es).messages, t), LastSeq(Run(EMPTY, es), t));
  }

  // ---- unread counts ----

  function Unread(db: Db, t: Tid, user: User): int
    requires t in db.threads && (t, user) in db.cursors
  {
    Max(db.threads[t].lastSeq - db.cursors[(t, user)], 0)
  }

  function CountAbove(s: seq<int>, c: int): nat {
    if s == [] then 0 else CountAbove(s[..|s| - 1], c) + if s[|s| - 1] > c then 1 else 0
  }

  lemma {:induction false} CountAboveUpTo(n: nat, c: nat)
    ensures CountAbove(UpTo(n), c) == Max(n - c, 0)
  {
    if n > 0 {
      CountAboveUpTo(n - 1, c);
      assert UpTo(n)[..n - 1] == UpTo(n - 1);
    }
  }

  /** unread_count is the number of messages ever sent to the thread beyond the
      reader's cursor, purged ones included. */
  lemma UnreadIsExact(es: seq<Timed>, t: Tid, user: User)
    requires t in Run(EMPTY, es).threads && (t, user) in Run(EMPTY, es).cursors
    ensures Unread(Run(EMPTY, es), t, user) == CountAbove(Assigned(EMPTY, es, t), Run(EMPTY, es).cursors[(t, user)])
  {
    SequenceHasNoGaps(es, t);
    CountAboveUpTo(LastSeq(Run(EMPTY, es), t), Run(EMPTY, es).cursors[(t, user)]);
  }

  // ---- read cursors ----

  /** The sequence numbers a member reported as read. */
  function Reports(es: seq<Timed>, t: Tid, user: User): set<int> {
    if es == [] then {} else Reports(es[..|es| - 1], t, user) + ReportOf(es[|es| - 1].ev, t, user)
  }

  function ReportOf(ev: Event, t: Tid, user: User): set<int> {
    if ev.ReadThread? && ev.thread == t && ev.user == user && ev.upTo >= 0 then {ev.upTo} else {}
  }

  lemma StepMovesCursor(db: Db, e: Timed, t: Tid, user: User)
    requires (t, user) in db.cursors
    ensures (t, user) in Step(db, e).0.cursors
    ensures Step(db, e).0.cursors[(t, user)] ==
      if ReportOf(e.ev, t, user) == {} then db.cursors[(t, user)] else Max(db.cursors[(t, user)], e.ev.upTo)
  {
    if e.ev.EnsureThread? {
      JoiningKeepsCursors(db.cursors, e.ev.thread, e.ev.members, (t, user));
    }
  }

  /** A member's cursor ends as the largest of where it stood and everything the
      member reported: it depends on the set of reports, not on their order. */
  lemma {:induction false} CursorIsTheLargestReport(db: Db, es: seq<Timed>, t: Tid, user: User)
    requires (t, user) in db.cursors
    ensures (t, user) in Run(db, es).cursors
    ensures var c := Run(db, es).cursors[(t, user)];
      && (c == db.cursors[(t, user)] || c in Reports(es, t, user))
      && c >= db.cursors[(t, user)] && forall r :: r in Reports(es, t, user) ==> r <= c
    decreases |es|
  {
    if es != [] {
      CursorIsTheLargestReport(db, es[..|es| - 1], t, user);
      StepMovesCursor(Run(db, es[..|es| - 1]), es[|es| - 1], t, user);
    }
  }

  lemma CursorIgnoresOrder(db: Db, es: seq<Timed>, fs: seq<Timed>, t: Tid, user: User)
    requires (t, user) in db.cursors && Reports(es, t, user) == Reports(fs, t, user)
    ensures (t, user) in Run(db, es).cursors && (t, user) in Run(db, fs).cursors
    ensures Run(db, es).cursors[(t, user)] == Run(db, fs).cursors[(t, user)]
  {
    CursorIsTheLargestReport(db, es, t, user);
    CursorIsTheLargestReport(db, fs, t, user);
  }

  // ---- idempotent send ----

  lemma StepAddsOnlyNewIds(db: Db, e: Timed)
    ensures Step(db, e).0.nextId >= db.nextId
    ensures forall m :: m in Step(db, e).0.messages ==> m in db.messages || m.id >= db.nextId
  {
  }

  lemma {:induction false} OldRowsStayOrGo(db: Db, es: seq<Timed>)
    ensures Run(db, es).nextId >= db.nextId
    ensures forall m :: m in Run(db, es).messages ==> m in db.messages || m.id >= db.nextId
    decreases |es|
  {
    if es != [] {
      OldRowsStayOrGo(db, es[..|es| - 1]);
      StepAddsOnlyNewIds(Run(db, es[..|es| - 1]), es[|es| - 1]);
    }
  }

  /** A retry of a stored message, at any later time, gets the message's own id,
      number and time back and changes nothing, exactly as long as the message is
      retained; afterwards it never does. */
  lemma RetryRepeatsExactlyWhileRetained(db: Db, clock: int, m: Message, es: seq<Timed>, now: int, d: Draft)
    requires Inv(db, clock) && Ordered(es, clock) && m in db.messages
    requires d.sender == m.sender && d.clientId == m.clientId && KnownKind(d.kind) && !d.limited
    ensures m in Run(db, es).messages ==> Send(Run(db, es), now, d) == (Run(db, es), AcceptedAs(m))
    ensures m !in Run(db, es).messages ==> Send(Run(db, es), now, d).1 != AcceptedAs(m)
  {
    RunKeepsInv(db, clock, es);
    OldRowsStayOrGo(db, es);
  }

  predicate Retained(db: Db, id: nat) {
    exists m :: m in db.messages && m.id == id
  }

  lemma RetainedIsTheRow(db: Db, clock: int, es: seq<Timed>, m: Message)
    requires Inv(db, clock) && m in db.messages
    ensures Retained(Run(db, es), m.id) <==> m in Run(db, es).messages
  {
    OldRowsStayOrGo(db, es);
    hide Run;
  }

  /** From the sender's side: once a send was accepted, any later retry under the
      same client id that gets past validation and the rate limits is answered
      with the very same reply, changing nothing, exactly while the row is retained. */
  lemma FirstReplyIsRepeated(db: Db, clock: int, now: int, d: Draft, es: seq<Timed>, later: int, again: Draft)
    requires Inv(db, clock) && clock <= now && Ordered(es, now)
    requires Send(db, now, d).1.Accepted?
    requires again.sender == d.sender && again.clientId == d.clientId && KnownKind(again.kind) && !again.limited
    ensures var (db1, first) := Send(db, now, d);
      if Retained(Run(db1, es), first.id) then Send(Run(db1, es), later, again) == (Run(db1, es), first)
      else Send(Run(db1, es), later, again).1 != first
  {
    hide Inv, Ordered, Run;
    var (db1, first) := Send(db, now, d);
    StepKeepsInv(db, clock, At(now, SendMessage(d)));
    var m :| m in db1.messages && AcceptedAs(m) == first && m.sender == d.sender && m.clientId == d.clientId;
    RetryRepeatsExactlyWhileRetained(db1, now, m, es, later, again);
    RetainedIsTheRow(db1, now, es, m);
  }

  // ---- what each handler means for its caller ----

  /** May this message be stored: a known kind, within the rate limits, not stored before under
      its sender's client id, in an active thread, from a member, with nothing failing. */
  predicate Admissible(db: Db, d: Draft) {
    && d.kind in {"text", "image", "system", "order_event"} && !d.limited
    && (forall m :: m in db.messages ==> !(m.sender == d.sender && m.clientId == d.clientId))
    && d.thread in db.threads && db.threads[d.thread].status == Active
    && (d.thread, d.sender) in db.cursors
    && !d.failing
  }

  /** One row more, the draft under the thread's next number, and nothing else. */
  predicate AddsTheDraft(db: Db, now: int, d: Draft, after: Db, reply: Reply)
    requires d.thread in db.threads
  {
    && after.messages == db.messages + [Message(db.nextId, d.thread, d.sender, d.clientId, db.threads[d.thread].lastSeq + 1, d.kind, d.content, now)]
    && after.threads.Keys == db.threads.Keys
    && (forall t :: t in db.threads ==>
          after.threads[t] == if t == d.thread then db.threads[t].(lastSeq := db.threads[t].lastSeq + 1) else db.threads[t])
    && after.cursors == db.cursors && after.nextId == db.nextId + 1
    && reply == Accepted(db.nextId, db.threads[d.thread].lastSeq + 1, now)
  }

  /** Why a draft is not stored, in the order of the checks. */
  predicate RefusedFor(db: Db, d: Draft, reply: Reply) {
    if d.kind !in {"text", "image", "system", "order_event"} then reply == BadRequest
    else if d.limited then reply == RateLimited
    else if exists m :: m in db.messages && m.sender == d.sender && m.clientId == d.clientId
      then exists m :: m in db.messages && m.sender == d.sender && m.clientId == d.clientId && reply == Accepted(m.id, m.num, m.createdAt)
    else if d.thread !in db.threads || (d.thread, d.sender) !in db.cursors then reply == Forbidden
    else if db.threads[d.thread].status != Active then reply == ThreadInactive
    else reply == ServerError
  }

  predicate Sent(db: Db, now: int, d: Draft, after: Db, reply: Reply) {
    if Admissible(db, d) then AddsTheDraft(db, now, d, after, reply) else after == db && RefusedFor(db, d, reply)
  }

  /** A row is added exactly for an admissible draft, and carries the draft; every other call
      leaves the tables alone and says why. */
  lemma SendMeans(db: Db, now: int, d: Draft)
    ensures Sent(db, now, d, Send(db, now, d).0, Send(db, now, d).1)
  {
    hide Find;
    var existing := Find(db.messages, d.sender, d.clientId);
    if existing.Some? {
      assert existing.value in db.messages;
    }
  }

  ghost predicate SendersAreMembers(db: Db) {
    forall m :: m in db.messages ==> (m.thread, m.sender) in db.cursors
  }

  /** No step takes a membership back. */
  lemma MembershipsStay(db: Db, e: Timed, key: (Tid, User))
    requires key in db.cursors
    ensures key in Step(db, e).0.cursors
  {
    StepMovesCursor(db, e, key.0, key.1);
  }

  /** Over every run, whoever wrote a stored message is a member of its thread. */
  lemma {:induction false} OnlyMembersWrite(es: seq<Timed>)
    ensures SendersAreMembers(Run(EMPTY, es))
    decreases |es|
  {
    if es != [] {
      var before, e := Run(EMPTY, es[..|es| - 1]), es[|es| - 1];
      OnlyMembersWrite(es[..|es| - 1]);
      var after := Step(before, e).0;
      forall m | m in after.messages ensures (m.thread, m.sender) in after.cursors {
        if m in before.messages {
          MembershipsStay(before, e, (m.thread, m.sender));
        } else {
          NewRowsAreSent(before, e, m);
          SendMeans(before, e.now, e.ev.draft);
        }
      }
    }
  }

  lemma NewRowsAreSent(db: Db, e: Timed, m: Message)
    requires m in Step(db, e).0.messages && m !in db.messages
    ensures e.ev.SendMessage? && m in Send(db, e.now, e.ev.draft).0.messages
  {
  }

  predicate Ensured(db: Db, actor: User, t: Tid, members: seq<Member>, after: Db, reply: Reply) {
    && (reply == Done <==>
          |members| >= 2 && (exists m :: m in members && m.user == actor)
          && forall m :: m in members ==> m.role == "traveler" || m.role == "host")
    && (reply != Done ==> after == db)
    && (reply == Done ==>
          && after.messages == db.messages && after.nextId == db.nextId
          && after.threads == (if t in db.threads then db.threads
                               else db.threads[t := Thread(Active, 0, if t.kind == OrderThread then 180 else 14)])
          && (forall key :: key in after.cursors ==> after.cursors[key] == if key in db.cursors then db.cursors[key] else 0)
          && (forall key :: key in db.cursors ==> key in after.cursors)
          && (forall m :: m in members ==> (t, m.user) in after.cursors)
          && (forall key :: key in after.cursors ==> key in db.cursors || (key.0 == t && exists m :: m in members && m.user == key.1)))
  }

  /** Ensuring a thread: done exactly for two members or more, the caller among them, all
      travelers or hosts. The thread exists afterwards, a new one active, empty and kept 14 days
      for a match or 180 for an order; the listed users are members. Otherwise nothing changes. */
  lemma EnsureMeans(db: Db, actor: User, t: Tid, members: seq<Member>)
    ensures Ensured(db, actor, t, members, Ensure(db, actor, t, members).0, Ensure(db, actor, t, members).1)
  {
    hide WithMembers;
    forall key
      ensures key in WithMembers(db.cursors, t, members) <==> key in db.cursors || (key.0 == t && exists m :: m in members && m.user == key.1)
      ensures key in WithMembers(db.cursors, t, members) ==>
        WithMembers(db.cursors, t, members)[key] == if key in db.cursors then db.cursors[key] else 0
    {
      JoiningKeepsCursors(db.cursors, t, members, key);
    }
  }

  /** A retention pass keeps exactly the messages younger than their kind's days, in each
      thread a suffix, and touches nothing else. */
  lemma RetainMeans(db: Db, now: int, matchDays: int, orderDays: int)
    ensures var after := Retain(db, now, matchDays, orderDays);
      && after.threads == db.threads && after.cursors == db.cursors && after.nextId == db.nextId
      && (forall m :: m in after.messages <==>
            m in db.messages && m.createdAt >= now - (if m.thread.kind == MatchThread then matchDays else orderDays) * 86_400_000_000)
      && (Chronological(db.messages) ==>
            forall t :: |RowsOf(after.messages, t)| <= |RowsOf(db.messages, t)|
              && RowsOf(after.messages, t) == RowsOf(db.messages, t)[|RowsOf(db.messages, t)| - |RowsOf(after.messages, t)|..])
  {
    hide Purge, Select;
    var mc, oc := now - matchDays * DAY, now - orderDays * DAY;
    if Chronological(db.messages) {
      forall t
        ensures |RowsOf(Purge(db.messages, mc, oc), t)| <= |RowsOf(db.messages, t)|
        ensures RowsOf(Purge(db.messages, mc, oc), t)
             == RowsOf(db.messages, t)[|RowsOf(db.messages, t)| - |RowsOf(Purge(db.messages, mc, oc), t)|..]
      {
        PurgeIsSince(db.messages, mc, oc, t);
        SinceIsASuffix(db.messages, t, if t.kind.MatchThread? then mc else oc);
      }
    }
  }
}
