/** The chat service's handlers as code over mutable tables, each proved against
    the transactions of MessageLog and the listing query of MessagePaging. */
module ImApi {
  import opened Prelude
  import opened MessageLog
  import opened MessagePaging

  datatype Settings = Settings(retentionMatchDays: int, retentionOrderDays: int)

  datatype Listing = Listing(messages: seq<Message>, truncated: bool, serverMinSeq: int)

  function ClampInt(v: int, min: int, max: int): int {
    if v < min then min else if v > max then max else v
  }

  /** 1 to 200, and the asked limit in between. */
  function Limit(asked: int): (limit: nat)
    ensures 1 <= limit <= 200 && (1 <= asked <= 200 ==> limit == asked)
    ensures (asked < 1 ==> limit == 1) && (asked > 200 ==> limit == 200)
  {
    ClampInt(asked, 1, 200)
  }

  /** The thread's own retention days, or the default of its kind. */
  function Days(s: Settings, t: Tid, th: Thread): (days: int)
    ensures th.retentionDays > 0 ==> days == th.retentionDays
    ensures th.retentionDays <= 0 ==> days == if t.kind == MatchThread then s.retentionMatchDays else s.retentionOrderDays
  {
    if th.retentionDays > 0 then th.retentionDays
    else if t.kind.MatchThread? then s.retentionMatchDays else s.retentionOrderDays
  }

  /** The oldest creation time a listing at `now` shows. */
  function Cutoff(s: Settings, t: Tid, th: Thread, now: int): int {
    now - Days(s, t, th) * DAY
  }

  function Reversed(s: seq<Message>): seq<Message> {
    seq(|s|, i requires 0 <= i < |s| => s[|s| - 1 - i])
  }

  class Service {
    const settings: Settings
    var threads: map<Tid, Thread>
    var cursors: map<(Tid, User), nat>
    var messages: seq<Message>
    var nextId: nat

    constructor (settings: Settings)
      ensures Tables() == EMPTY && this.settings == settings
    {
      this.settings := settings;
      threads, cursors, messages, nextId := map[], map[], [], 0;
    }

    function Tables(): Db
      reads this
    {
      Db(threads, cursors, messages, nextId)
    }

    method CreateMessage(now: int, d: Draft) returns (reply: Reply)
      modifies this`threads, this`messages, this`nextId
      ensures Sent(old(Tables()), now, d, Tables(), reply)
      ensures (Tables(), reply) == Send(old(Tables()), now, d)
    {
      hide Sent, Find;
      SendMeans(Tables(), now, d);
      if d.kind != "text" && d.kind != "image" && d.kind != "system" && d.kind != "order_event" {
        return BadRequest;
      }
      if d.limited {
        return RateLimited;
      }
      var existing := Find(messages, d.sender, d.clientId);
      if existing.Some? {
        return Accepted(existing.value.id, existing.value.num, existing.value.createdAt);
      }
      if d.thread !in threads || (d.thread, d.sender) !in cursors {
        return Forbidden;
      }
      if threads[d.thread].status != Active {
        return ThreadInactive;
      }
      var before := threads;
      var th := threads[d.thread];
      threads := threads[d.thread := th.(lastSeq := th.lastSeq + 1)];
      var nextSeq := threads[d.thread].lastSeq;
      if d.failing {
        threads := before; // rollback
        return ServerError;
      }
      messages := messages + [Message(nextId, d.thread, d.sender, d.clientId, nextSeq, d.kind, d.content, now)];
      reply := Accepted(nextId, nextSeq, now);
      nextId := nextId + 1;
    }

    method ReadThread(user: User, t: Tid, lastReadSeq: int) returns (reply: Reply)
      modifies this`cursors
      ensures reply == Done <==> lastReadSeq >= 0 && (t, user) in old(cursors)
      ensures reply != Done ==> cursors == old(cursors)
      // the member's cursor reaches the report and never goes back; no other cursor moves
      ensures reply == Done ==>
              cursors.Keys == old(cursors).Keys
              && cursors[(t, user)] >= lastReadSeq && cursors[(t, user)] >= old(cursors)[(t, user)]
              && (cursors[(t, user)] == lastReadSeq || cursors[(t, user)] == old(cursors)[(t, user)])
              && forall key :: key in cursors && key != (t, user) ==> cursors[key] == old(cursors)[key]
      // reading again up to the same point, or less, is accepted and changes nothing
      ensures reply == Done ==>
              forall upTo :: 0 <= upTo <= lastReadSeq ==> ReadUpTo(Tables(), user, t, upTo) == (Tables(), Done)
      ensures (Tables(), reply) == ReadUpTo(old(Tables()), user, t, lastReadSeq)
    {
      if lastReadSeq < 0 {
        return BadRequest;
      }
      if (t, user) !in cursors {
        return Forbidden;
      }
      if lastReadSeq > cursors[(t, user)] {
        cursors := cursors[(t, user) := lastReadSeq];
      }
      assert cursors == old(cursors)[(t, user) := Max(old(cursors)[(t, user)], lastReadSeq)];
      assert cursors[(t, user) := cursors[(t, user)]] == cursors;
      reply := Done;
    }

    method EnsureThread(actor: User, t: Tid, members: seq<Member>) returns (reply: Reply)
      modifies this`threads, this`cursors
      ensures Ensured(old(Tables()), actor, t, members, Tables(), reply)
      ensures (Tables(), reply) == Ensure(old(Tables()), actor, t, members)
    {
      hide Ensured, WithMembers;
      EnsureMeans(Tables(), actor, t, members);
      if |members| < 2 {
        return BadRequest;
      }
      var found := false;
      for i := 0 to |members|
        invariant found <==> exists j :: 0 <= j < i && members[j].user == actor
      {
        if members[i].user == actor {
          found := true;
          break;
        }
      }
      if !found {
        return Forbidden;
      }
      var oldThreads, oldCursors := threads, cursors;
      NobodyJoins(cursors, t, members);
      if t !in threads {
        threads := threads[t := Thread(Active, 0, if t.kind == OrderThread then 180 else 14)];
      }
      for i := 0 to |members|
        invariant forall j :: 0 <= j < i ==> KnownRole(members[j].role)
        invariant cursors == WithMembers(oldCursors, t, members[..i])
        invariant threads == if t in oldThreads then oldThreads else oldThreads[t := Thread(Active, 0, DefaultRetention(t.kind))]
      {
        if members[i].role != "traveler" && members[i].role != "host" {
          threads, cursors := oldThreads, oldCursors; // rollback
          assert members[i] in members && !KnownRole(members[i].role);
          return BadRequest;
        }
        OneJoins(oldCursors, t, members, i);
        if (t, members[i].user) !in cursors {
          cursors := cursors[(t, members[i].user) := 0];
        }
      }
      assert members[..|members|] == members;
      reply := Done;
    }

    /** select ... order by seq desc limit n: the rows are stored by ascending
        number, so scanning them backwards yields the order. */
    method SelectDescending(q: Query, limit: nat) returns (rows: seq<Message>)
      ensures rows == Reversed(Page(messages, q, limit))
    {
      rows := [];
      var i := |messages|;
      assert messages[..i] == messages && Reversed(rows) == [];
      while i > 0 && |rows| < limit
        invariant 0 <= i <= |messages| && |rows| <= limit
        invariant Select(messages, q) == Select(messages[..i], q) + Reversed(rows)
        decreases i
      {
        i := i - 1;
        assert messages[..i + 1][..i] == messages[..i];
        if Hits(q, messages[i]) {
          ghost var before := rows;
          rows := rows + [messages[i]];
          assert Reversed(rows) == [messages[i]] + Reversed(before);
        }
      }
      assert i == 0 ==> messages[..i] == [];
      assert Reversed(Reversed(rows)) == rows;
      assert Newest(Select(messages, q), limit) == Reversed(rows);
    }

    method ListMessages(now: int, user: User, t: Tid, after: Option<int>, before: Option<int>, limitParam: int)
      returns (out: Option<Listing>)
      ensures out.None? <==> t !in threads || (t, user) !in cursors
      // for any table a run leaves: only what was asked for, the newest first to get in
      ensures out.Some? ==>
        |out.value.messages| <= Limit(limitParam)
        && forall m :: m in out.value.messages ==> m in messages && Asked(m, t, now - Days(settings, t, threads[t]) * 86_400_000_000, after, before)
      ensures out.Some? ==> forall clock :: Inv(Tables(), clock) ==>
        forall m :: m in messages && Asked(m, t, now - Days(settings, t, threads[t]) * 86_400_000_000, after, before) && m !in out.value.messages ==>
          |out.value.messages| == Limit(limitParam) && forall p :: p in out.value.messages ==> m.num < p.num
      ensures out.Some? ==>
        var cutoff := Cutoff(settings, t, threads[t], now);
        && out.value.messages == Page(messages, Query(t, Some(cutoff), after, before), Limit(limitParam))
        && out.value.serverMinSeq == MinSeq(Select(messages, Visible(t, cutoff, None)))
        && (out.value.truncated <==> Truncated(threads[t].lastSeq, out.value.serverMinSeq))
    {
      hide Select, MinSeq, Newest, Page, Asked, Inv;
      if t !in threads || (t, user) !in cursors {
        return None;
      }
      var cutoff := Cutoff(settings, t, threads[t], now);
      var limit := Limit(limitParam);
      var rows := SelectDescending(Query(t, Some(cutoff), after, before), limit);
      // reverse to ascending seq, in place
      var page := new Message[|rows|](k requires 0 <= k < |rows| => rows[k]);
      ReverseInPlace(page);
      assert page[..] == Page(messages, Query(t, Some(cutoff), after, before), limit);
      var minSeq := MinSeq(Select(messages, Visible(t, cutoff, None)));
      out := Some(Listing(page[..], threads[t].lastSeq > 0 && minSeq > 1, minSeq));
      PageHolds(messages, t, cutoff, after, before, limit);
      forall clock | Inv(Tables(), clock)
        ensures forall m :: m in messages && Asked(m, t, cutoff, after, before) && m !in out.value.messages ==>
          |out.value.messages| == limit && forall p :: p in out.value.messages ==> m.num < p.num
      {
        PageMeans(Tables(), clock, t, cutoff, after, before, limit);
      }
    }

    method RunRetention(now: int)
      modifies this`messages
      ensures forall m :: m in messages <==>
        m in old(messages)
        && m.createdAt >= now - (if m.thread.kind == MatchThread then settings.retentionMatchDays else settings.retentionOrderDays) * 86_400_000_000
      ensures Tables() == Retain(old(Tables()), now, settings.retentionMatchDays, settings.retentionOrderDays)
    {
      RetainMeans(Tables(), now, settings.retentionMatchDays, settings.retentionOrderDays);
      hide Purge, DeleteOlder;
      var matchCutoff := now - settings.retentionMatchDays * DAY;
      var orderCutoff := now - settings.retentionOrderDays * DAY;
      messages := DeleteOlder(messages, MatchThread, matchCutoff);
      messages := DeleteOlder(messages, OrderThread, orderCutoff);
      TwoDeletesArePurge(old(messages), matchCutoff, orderCutoff);
    }
  }

  lemma NobodyJoins(cursors: map<(Tid, User), nat>, t: Tid, members: seq<Member>)
    ensures WithMembers(cursors, t, members[..0]) == cursors
  {
  }

  lemma OneJoins(cursors: map<(Tid, User), nat>, t: Tid, members: seq<Member>, i: nat)
    requires i < |members|
    ensures var c := WithMembers(cursors, t, members[..i]);
      WithMembers(cursors, t, members[..i + 1]) == if (t, members[i].user) in c then c else c[(t, members[i].user) := 0]
  {
    assert members[..i + 1][..i] == members[..i];
  }

  lemma PageHolds(ms: seq<Message>, t: Tid, since: int, after: Option<int>, before: Option<int>, limit: nat)
    ensures var page := Page(ms, Query(t, Some(since), after, before), limit);
      |page| <= limit && forall m :: m in page ==> m in ms && Asked(m, t, since, after, before)
  {
    var q := Query(t, Some(since), after, before);
    SelectMembers(ms, q);
    var rows := Select(ms, q);
    hide Select;
    forall m | m in Newest(rows, limit) ensures m in rows {
    }
  }

  method ReverseInPlace(a: array<Message>)
    modifies a
    ensures a[..] == Reversed(old(a[..]))
  {
    var i, j := 0, a.Length - 1;
    while i < j
      invariant 0 <= i && i + j == a.Length - 1 && i <= j + 1
      invariant forall k :: 0 <= k < i || j < k < a.Length ==> a[k] == old(a[a.Length - 1 - k])
      invariant forall k :: i <= k <= j ==> a[k] == old(a[k])
    {
      a[i], a[j] := a[j], a[i];
      i, j := i + 1, j - 1;
    }
  }
}
