/** What the order and payment system guarantees over every run of its writers. */
module PaymentGuarantees {
  import opened Prelude
  import opened Orders
  import opened Payments
  import opened PaymentRuns

  lemma Reachable(steps: seq<Timed>)
    ensures PaymentRuns.Inv(Run(Empty(), steps))
  {
    EmptyHolds();
    RunKeeps(Empty(), steps);
  }

  // ---- orders ----

  /** The status log is a true history of every order: it starts with the creation, each
      entry continues the one before by a change some writer may make, and the last one
      is the order's status; a COMPLETED order's log is exactly the path. */
  lemma OrderLogsAreTrue(steps: seq<Timed>, id: nat)
    requires id < |Run(Empty(), steps).book.orders|
    ensures var b := Run(Empty(), steps).book;
      var h := History(b.logs, id);
      && TrueHistory(h) && h[|h| - 1].toStatus == b.orders[id].status
      && (b.orders[id].status == Completed
          <==> h == [LogRow(id, None, PendingPayment)] + seq(4, i requires 0 <= i < 4 => LogRow(id, Some(Path()[i]), Path()[i + 1])))
      && b.orders[id].status != Disputed
  {
    Reachable(steps);
    var b := Run(Empty(), steps).book;
    hide Run, History, Path;
    assert OrderInv(b, id);
    CompletedOrdersWalkedThePath(b, id);
  }

  /** Whatever runs next: COMPLETED is final and logs nothing more, the cancelled statuses
      are left together only, a started service is never cancelled, a payment is never
      forgotten, and the log is only appended to. */
  lemma OrderOutcomesAreFinal(steps: seq<Timed>, more: seq<Timed>, id: nat)
    requires id < |Run(Empty(), steps).book.orders|
    ensures var b, c := Run(Empty(), steps).book, Run(Run(Empty(), steps), more).book;
      && id < |c.orders|
      && History(b.logs, id) <= History(c.logs, id)
      && (b.orders[id].status == Completed ==> c.orders[id].status == Completed && History(c.logs, id) == History(b.logs, id))
      && (Cancelled(b.orders[id].status) ==> Cancelled(c.orders[id].status))
      && (b.orders[id].status == InService ==> c.orders[id].status in {InService, Completed})
      && (b.orders[id].payment != Unpaid ==> c.orders[id].payment != Unpaid)
  {
    Reachable(steps);
    var db := Run(Empty(), steps);
    RunKeeps(db, more);
    var after := Run(db, more);
    hide Run, History, Orders.Inv;
    assert Continues(db.book, after.book, id);
    hide Extends;
    OutcomesAreFinal(db.book, after.book, id);
  }

  /** Over all writers, an order has a payment time exactly when it is not UNPAID, and has one
      in every status from PENDING_HOST_CONFIRM to COMPLETED; so does every order with a
      payment or a refund row, and a refund belongs to the order of its payment. */
  lemma PaidMeansPaid(steps: seq<Timed>)
    ensures var db := Run(Empty(), steps);
      && (forall o :: o in db.book.orders ==>
            && (o.payment != Unpaid <==> o.paidAt.Some?)
            && (o.status in {PendingHostConfirm, Confirmed, InService, Completed} ==> o.paidAt.Some?))
      && (forall p :: p in db.payments ==> p.order < |db.book.orders| && db.book.orders[p.order].payment != Unpaid)
      && (forall r :: r in db.refunds ==>
            && r.order < |db.book.orders| && db.book.orders[r.order].payment != Unpaid
            && r.payment < |db.payments| && db.payments[r.payment].order == r.order)
  {
    Reachable(steps);
    var db := Run(Empty(), steps);
    hide Run, History, TrueHistory;
    forall o | o in db.book.orders ensures MoneyIsTrue(o) {
      var id: nat :| id < |db.book.orders| && db.book.orders[id] == o;
      assert OrderInv(db.book, id);
    }
  }

  /** Creating an order is idempotent per traveler, host, experience and start time. */
  lemma OneOrderPerBooking(steps: seq<Timed>, i: nat, j: nat)
    requires i < |Run(Empty(), steps).book.orders| && j < |Run(Empty(), steps).book.orders|
    ensures var o, p := Run(Empty(), steps).book.orders[i], Run(Empty(), steps).book.orders[j];
      o.traveler == p.traveler && o.host == p.host && o.experience == p.experience && o.startTime == p.startTime <==> i == j
  {
    Reachable(steps);
    hide Run;
  }

  // ---- events ----

  /** Each event takes effect at most once: no (provider, event id) is committed twice, the
      store holds each at most once, and it is marked processed exactly when committed. */
  lemma EventsCommitAtMostOnce(steps: seq<Timed>)
    ensures var db := Run(Empty(), steps);
      && (forall i, j :: 0 <= i < j < |db.commits| ==> db.commits[i] != db.commits[j])
      && (forall i, j :: 0 <= i < j < |db.events| ==>
            db.events[i].provider != db.events[j].provider || db.events[i].event.eventId != db.events[j].event.eventId)
      && (forall e :: e in db.events ==> (e.status == Processed <==> EventKey(e.provider, e.event.eventId) in db.commits))
      && (forall c :: c in db.commits ==> Stored(db, c))
  {
    Reachable(steps);
    var db := Run(Empty(), steps);
    hide Run;
    forall c | c in db.commits ensures Stored(db, c) {
      var k :| 0 <= k < |db.events| && KeyOf(db.events[k]) == c;
      assert db.events[k] in db.events;
    }
  }

  /** 'processed' is absorbing. */
  lemma ProcessedIsFinal(steps: seq<Timed>, more: seq<Timed>, k: nat)
    requires k < |Run(Empty(), steps).events| && Run(Empty(), steps).events[k].status == Processed
    ensures var after := Run(Run(Empty(), steps), more);
      k < |after.events| && after.events[k].status == Processed && KeyOf(after.events[k]) == KeyOf(Run(Empty(), steps).events[k])
  {
    Reachable(steps);
    var db := Run(Empty(), steps);
    RunKeeps(db, more);
    var after := Run(db, more);
    hide Run, TablesInv, Extends;
    assert KeyOf(db.events[k]) in after.commits[..|db.commits|];
  }

  /** A second delivery of an event, with whatever content and however much later,
      is answered as a duplicate and changes nothing; a failed event too. */
  lemma RedeliveryChangesNothing(steps: seq<Timed>, more: seq<Timed>, provider: string, ev: Event, again: Event,
                                 row: nat, now: int, fault: Fault, row': nat, now': int, fault': Fault)
    requires ev.eventId != "" && again.eventId == ev.eventId
    ensures var first := HandleWebhook(Run(Empty(), steps), provider, Good(ev), row, now, fault).0;
      HandleWebhook(Run(first, more), provider, Good(again), row', now', fault') == (Run(first, more), Duplicate)
  {
    Reachable(steps);
    var db := Run(Empty(), steps);
    var first := HandleWebhook(db, provider, Good(ev), row, now, fault).0;
    WebhookKeeps(db, provider, Good(ev), row, now, fault);
    RunKeeps(first, more);
    DeliveredIsStored(db, provider, ev, row, now, fault);
    StoredStays(first, Run(first, more), EventKey(provider, ev.eventId));
  }

  lemma DeliveredIsStored(db: Database, provider: string, ev: Event, row: nat, now: int, fault: Fault)
    ensures Stored(Deliver(db, provider, ev, row, now, fault), EventKey(provider, ev.eventId))
  {
    hide Process;
    if !Stored(db, EventKey(provider, ev.eventId)) {
      var after := Deliver(db, provider, ev, row, now, fault);
      assert KeyOf(after.events[|db.events|]) == EventKey(provider, ev.eventId);
      assert after.events[|db.events|] in after.events;
    }
  }

  lemma StoredStays(db: Database, after: Database, key: EventKey)
    requires Grows(db, after) && Stored(db, key)
    ensures Stored(after, key)
  {
    hide Extends;
    var e :| e in db.events && KeyOf(e) == key;
    var k :| 0 <= k < |db.events| && db.events[k] == e;
    assert after.events[k] in after.events;
  }

  /** At most one payments row per provider and non-null transaction id. */
  lemma OnePaymentPerTransaction(steps: seq<Timed>, i: nat, j: nat)
    requires i < |Run(Empty(), steps).payments| && j < |Run(Empty(), steps).payments|
    ensures var p, q := Run(Empty(), steps).payments[i], Run(Empty(), steps).payments[j];
      p.provider == q.provider && p.txn == q.txn && p.txn.Some? ==> i == j
  {
    Reachable(steps);
    hide Run;
  }

  // ---- intents ----

  /** At most one intent of an order is ever active. */
  lemma OneActiveIntentPerOrder(steps: seq<Timed>, i: nat, j: nat)
    requires i < |Run(Empty(), steps).intents| && j < |Run(Empty(), steps).intents|
    ensures var intents := Run(Empty(), steps).intents;
      && intents[i].order == intents[j].order
      && intents[i].status in {RequiresConfirmation, Created} && intents[j].status in {RequiresConfirmation, Created}
      ==> i == j
  {
    Reachable(steps);
    hide Run;
  }

  /** Asking again while the intent is active, under any key and whatever the provider would
      answer, gives the same intent and changes nothing. */
  lemma CreateIntentIsIdempotent(db: Database, actor: Actor, id: nat, provider: string, key: Option<string>, answer: Option<IntentAnswer>, now: int,
                                 provider': string, key': Option<string>, answer': Option<IntentAnswer>, now': int)
    requires PaymentRuns.Inv(db)
    ensures var (after, reply) := CreateIntent(db, actor, id, true, provider, key, answer, now);
      reply.Fine? ==>
        && reply.id < |after.intents| && after.intents[reply.id].order == id
        && (after.intents[reply.id].status in {RequiresConfirmation, Created} ==> CreateIntent(after, actor, id, true, provider', key', answer', now') == (after, reply))
  {
    hide Newest;
    var (after, reply) := CreateIntent(db, actor, id, true, provider, key, answer, now);
    if reply.Fine? && after != db && Active(after.intents[reply.id]) {
      assert after.intents[|db.intents|].order == id;
    }
  }

  /** Not updated since the cutoff, waiting for its confirmation, an action or the provider, of an order that is not PAID. */
  predicate Abandoned(db: Database, k: nat, cutoff: int) {
    && k < |db.intents| && db.intents[k].updatedAt < cutoff
    && (db.intents[k].status == RequiresConfirmation || db.intents[k].status == Processing || db.intents[k].status == RequiresAction)
    && db.intents[k].order < |db.book.orders| && db.book.orders[db.intents[k].order].payment != Paid
  }

  /** The cleanup fails abandoned intents only, never one while an abandoned one that was updated
      earlier stays, and as many as the limit allows: when it covers them all, none is left.
      Orders, payments and refunds are not touched. */
  lemma CleanupIsExact(db: Database, cutoff: int, limit: nat, batch: set<nat>, now: int)
    requires StaleBatch(db, cutoff, limit, batch)
    ensures var after, all := Cleanup(db, cutoff, limit, batch, now), set k: nat | k < |db.intents| && Abandoned(db, k, cutoff);
      && after == db.(intents := after.intents) && |after.intents| == |db.intents|
      && (forall k: nat :: k < |db.intents| ==>
            after.intents[k] == if k in batch then db.intents[k].(status := IntentFailed, updatedAt := now) else db.intents[k])
      && batch <= all && |batch| == Min(limit, |all|)
      && (forall i, j :: i in batch && j in all - batch ==> db.intents[i].updatedAt <= db.intents[j].updatedAt)
      && (|all| <= limit ==> batch == all)
  {
    var all := set k: nat | k < |db.intents| && Abandoned(db, k, cutoff);
    assert StaleIds(db, cutoff) == all;
    hide Stale, Abandoned;
    if |all| <= limit {
      assert |all - batch| == |all| - |batch|;
      assert all == batch + (all - batch);
    }
  }

  // ---- what events do ----

  /** A payment success settles one intent and pays its order and no other: the intent with
      the event's provider id when there is one, else the newest processing intent of the
      provider. The payment is on record, by its transaction id exactly once. */
  lemma PaymentEffects(db: Database, ev: Event, row: nat, now: int) returns (k: nat)
    requires PaymentRuns.Inv(db) && ev.kind == PaymentSucceeded && Process(db, ev, row, now, NoFault).done
    ensures k < |db.intents| && db.intents[k].order < |db.book.orders|
    ensures Same(db.intents[k].providerIntentId, ev.intentRef)
            || (db.intents[k].provider == ev.provider && db.intents[k].status == Processing
                && forall i :: i in db.intents ==> !Same(i.providerIntentId, ev.intentRef))
    ensures var after, id := Process(db, ev, row, now, NoFault).db, db.intents[k].order;
      && after.intents == db.intents[k := db.intents[k].(status := IntentSucceeded, updatedAt := now)] && after.refunds == db.refunds
      && |after.book.orders| == |db.book.orders|
      && (forall j: nat :: j < |db.book.orders| && j != id ==> after.book.orders[j] == db.book.orders[j])
      && after.book.orders[id].payment == Paid && after.book.orders[id].paidAt == Some(now)
      && after.book.orders[id].status == (if db.book.orders[id].status == PendingPayment then PendingHostConfirm else db.book.orders[id].status)
      && (ev.txn.Some? ==> exists i: nat :: i < |after.payments| && after.payments[i].provider == ev.provider && after.payments[i].txn == ev.txn)
      && (ev.txn.None? ==> |after.payments| == |db.payments| + 1 && after.payments[|db.payments|].order == id)
  {
    hide PaymentRuns.Inv, Newest;
    k := IntentPaid(db, ev, row).value;
    if ev.txn.Some? {
      var after := Process(db, ev, row, now, NoFault).db;
      if TxnTaken(db, ev.provider, ev.txn) {
        var p :| p in db.payments && p.provider == ev.provider && p.txn == ev.txn;
        assert p in after.payments;
      } else {
        assert after.payments[|db.payments|].txn == ev.txn;
      }
    }
  }

  /** A refund success closes one refund and marks its order REFUNDED, and nothing else. */
  lemma RefundEffects(db: Database, ev: Event, row: nat, now: int) returns (k: nat)
    requires ev.kind == RefundSucceeded && Process(db, ev, row, now, NoFault).done
    ensures k < |db.refunds| && db.refunds[k].order < |db.book.orders|
    ensures Same(db.refunds[k].providerRefundId, ev.refundRef) || (db.refunds[k].provider == ev.provider && db.refunds[k].status == RefundProcessing)
    ensures var after, id := Process(db, ev, row, now, NoFault).db, db.refunds[k].order;
      && after.refunds == db.refunds[k := db.refunds[k].(status := RefundDone, providerRefundId := ev.refundRef)]
      && after.book == Book(db.book.orders[id := db.book.orders[id].(payment := Refunded)], db.book.logs)
      && after.intents == db.intents && after.payments == db.payments
  {
    hide Newest;
    k := RefundMeant(db, ev).value;
  }

  /** Every other event, and every event whose processing fails, leaves orders and payments alone;
      a failing payment event or refund success leaves everything alone. */
  lemma OtherEventsMoveNoMoney(db: Database, ev: Event, row: nat, now: int, fault: Fault)
    ensures var o := Process(db, ev, row, now, fault);
      && (!o.done || ev.kind !in {PaymentSucceeded, RefundSucceeded} ==> o.db.book == db.book && o.db.payments == db.payments)
      && (!o.done && ev.kind in {PaymentSucceeded, PaymentFailed, RefundSucceeded} ==> o.db == db)
  {
    hide Newest;
  }

  // ---- the retry job ends ----

  /** The retries a row has left. */
  function Left(e: EventRow, maxRetries: int): nat {
    if Retryable(e, maxRetries) then maxRetries - e.retries else 0
  }

  function Remaining(events: seq<EventRow>, maxRetries: int): nat {
    if events == [] then 0 else Left(events[0], maxRetries) + Remaining(events[1..], maxRetries)
  }

  predicate HasRetries(events: seq<EventRow>, k: nat, maxRetries: int) {
    k < |events| && events[k].status == Failed && events[k].retries < maxRetries
  }

  /** The list takes the failed rows with retries left, oldest first, and stops only at its limit. */
  lemma {:induction false} RetryListIsComplete(events: seq<EventRow>, k: nat, maxRetries: int, limit: nat)
    requires k <= |events|
    ensures var list := RetryList(events, k, maxRetries, limit);
      && |list| <= limit
      && (forall i, j :: 0 <= i < j < |list| ==> list[i] < list[j])
      && (forall j :: j in list ==> k <= j && HasRetries(events, j, maxRetries))
      && (forall j: nat :: k <= j && HasRetries(events, j, maxRetries) && j !in list ==> |list| == limit && forall i :: i in list ==> i < j)
    decreases |events| - k
  {
    if k < |events| && limit > 0 {
      assert HasRetries(events, k, maxRetries) == Retryable(events[k], maxRetries);
      hide HasRetries, Retryable;
      RetryListIsComplete(events, k + 1, maxRetries, if Retryable(events[k], maxRetries) then limit - 1 else limit);
    }
  }

  lemma {:induction false} RemainingSplits(events: seq<EventRow>, k: nat, e: EventRow, maxRetries: int)
    requires k < |events|
    ensures Remaining(events[k := e], maxRetries) + Left(events[k], maxRetries) == Remaining(events, maxRetries) + Left(e, maxRetries)
  {
    if k == 0 {
      assert events[0 := e][1..] == events[1..];
    } else {
      assert events[k := e][1..] == events[1..][k - 1 := e];
      RemainingSplits(events[1..], k - 1, e, maxRetries);
    }
  }

  lemma RetrySpendsOne(events: seq<EventRow>, k: nat, after: seq<EventRow>, maxRetries: int)
    requires k < |events| && |after| == |events| && after == events[k := after[k]]
    requires Retryable(events[k], maxRetries) && Retried(events[k], after[k])
    ensures Remaining(after, maxRetries) + 1 <= Remaining(events, maxRetries)
  {
    hide Remaining;
    RemainingSplits(events, k, after[k], maxRetries);
  }

  lemma OneRowRetried(db: Database, list: seq<nat>, i: nat, now: int, luck: Luck)
    requires 1 <= i <= |list| && forall j :: 0 <= j < |list| ==> list[j] < |db.events|
    ensures var before, after := RetryRows(db, list, i - 1, now, luck).events, RetryRows(db, list, i, now, luck).events;
      after == before[list[i - 1] := after[list[i - 1]]] && Retried(before[list[i - 1]], after[list[i - 1]])
  {
    hide ProcessRow, SameIds;
  }

  lemma {:induction false} RetryRowsSpend(db: Database, list: seq<nat>, i: nat, maxRetries: int, now: int, luck: Luck)
    requires i <= |list|
    requires forall j :: 0 <= j < |list| ==> list[j] < |db.events| && Retryable(db.events[list[j]], maxRetries)
    requires forall j, l :: 0 <= j < l < |list| ==> list[j] < list[l]
    ensures Remaining(RetryRows(db, list, i, now, luck).events, maxRetries) + i <= Remaining(db.events, maxRetries)
    decreases i
  {
    hide Remaining, ProcessRow, Retryable, Retried;
    if i > 0 {
      RetryRowsSpend(db, list, i - 1, maxRetries, now, luck);
      NotYetRetried(db, list, i, now, luck);
      OneRowRetried(db, list, i, now, luck);
      RetrySpendsOne(RetryRows(db, list, i - 1, now, luck).events, list[i - 1], RetryRows(db, list, i, now, luck).events, maxRetries);
    }
  }

  /** Every retried event spends a retry or leaves the failed rows: a pass over n events
      lowers the sum of the remaining retries by at least n, whatever fails. */
  lemma RetriesAreSpent(db: Database, maxRetries: int, limit: nat, now: int, luck: Luck)
    ensures Remaining(RetryFailedEvents(db, maxRetries, limit, now, luck).events, maxRetries)
            + |RetryList(db.events, 0, maxRetries, limit)| <= Remaining(db.events, maxRetries)
  {
    var list := RetryList(db.events, 0, maxRetries, limit);
    RetryRowsSpend(db, list, |list|, maxRetries, now, luck);
  }

  function RetryPasses(db: Database, n: nat, maxRetries: int, limit: nat, nows: nat -> int, lucks: nat -> Luck): Database {
    if n == 0 then db
    else RetryFailedEvents(RetryPasses(db, n - 1, maxRetries, limit, nows, lucks), maxRetries, limit, nows(n), lucks(n))
  }

  lemma {:induction false} PassesSpend(db: Database, n: nat, maxRetries: int, limit: nat, nows: nat -> int, lucks: nat -> Luck)
    requires limit > 0
    ensures var after := RetryPasses(db, n, maxRetries, limit, nows, lucks);
      Remaining(after.events, maxRetries) == 0 || Remaining(after.events, maxRetries) + n <= Remaining(db.events, maxRetries)
  {
    hide RetryFailedEvents;
    if n > 0 {
      PassesSpend(db, n - 1, maxRetries, limit, nows, lucks);
      var before := RetryPasses(db, n - 1, maxRetries, limit, nows, lucks);
      RetriesAreSpent(before, maxRetries, limit, nows(n), lucks(n));
      RetryListIsComplete(before.events, 0, maxRetries, limit);
      if RetryList(before.events, 0, maxRetries, limit) == [] {
        forall e | e in before.events ensures !Retryable(e, maxRetries) {
          var k: nat :| k < |before.events| && before.events[k] == e;
          assert !HasRetries(before.events, k, maxRetries);
        }
        NothingLeft(before.events, maxRetries);
      }
    }
  }

  lemma {:induction false} NothingLeft(events: seq<EventRow>, maxRetries: int)
    ensures Remaining(events, maxRetries) == 0 <==> forall e :: e in events ==> !Retryable(e, maxRetries)
  {
    if events != [] {
      NothingLeft(events[1..], maxRetries);
      assert events == [events[0]] + events[1..];
    }
  }

  lemma {:induction false} NothingToRetry(events: seq<EventRow>, k: nat, maxRetries: int, limit: nat)
    requires k <= |events| && forall e :: e in events ==> !Retryable(e, maxRetries)
    ensures RetryList(events, k, maxRetries, limit) == []
    decreases |events| - k
  {
    if k < |events| {
      assert events[k] in events;
      NothingToRetry(events, k + 1, maxRetries, limit);
    }
  }

  /** Repeating the job alone ends: after as many passes as there are retries left, no
      failed event is retryable, and every later pass changes nothing. */
  lemma RetryingEnds(db: Database, n: nat, maxRetries: int, limit: nat, nows: nat -> int, lucks: nat -> Luck, now: int, luck: Luck)
    requires limit > 0 && n >= Remaining(db.events, maxRetries)
    ensures var after := RetryPasses(db, n, maxRetries, limit, nows, lucks);
      && (forall e :: e in after.events ==> !Retryable(e, maxRetries))
      && RetryFailedEvents(after, maxRetries, limit, now, luck) == after
  {
    PassesSpend(db, n, maxRetries, limit, nows, lucks);
    var after := RetryPasses(db, n, maxRetries, limit, nows, lucks);
    NothingLeft(after.events, maxRetries);
    hide RetryPasses;
    NothingToRetry(after.events, 0, maxRetries, limit);
  }

  // ---- refunds ----

  /** An accepted refund request always ends with the order REFUNDING: also when the provider
      answered that the refund succeeded, the synchronous event was processed and the
      refund row says so. */
  lemma RefundRequestEndsRefunding(db: Database, id: nat, key: Option<string>, answer: Option<RefundAnswer>, webhookOnly: bool,
                                   eventId: string, row: nat, now: int, fault: Fault)
    ensures var r := RefundOrder(db, id, key, answer, webhookOnly, eventId, row, now, fault);
      r.1.Fine? ==> id < |r.0.book.orders| && r.0.book.orders[id].payment == Refunding
  {
    hide Process, Newest;
  }

  lemma {:induction false} NewestIsLast<T>(s: seq<T>, p: T -> bool)
    requires s != [] && p(s[|s| - 1])
    ensures Newest(s, p) == Some(|s| - 1)
  {
  }

  lemma SucceededRefundStaysRefunding(db: Database, id: nat, key: Option<string>, ref: string, eventId: string, row: nat, now: int)
    requires PaymentRuns.Inv(db) && id < |db.book.orders| && db.book.orders[id].payment in {Paid, Refunded}
    requires exists p :: p in db.payments && p.order == id
    requires !RefundKeyTaken(db, id, key) && (forall r :: r in db.refunds ==> r.providerRefundId != Some(ref))
    requires forall e :: e in db.events ==> e.event.eventId != eventId
    ensures var r := RefundOrder(db, id, key, Some(RefundAnswer(RefundDone, Some(ref))), false, eventId, row, now, NoFault);
      && r.1 == Fine(|db.refunds|)
      && r.0.refunds[|db.refunds|].status == RefundDone
      && r.0.book.orders[id].payment == Refunding
  {
    var p := Newest(db.payments, (p: Payment) => p.order == id);
    assert p.Some?;
    var payment, n := db.payments[p.value], |db.refunds|;
    var requested := db.(refunds := db.refunds + [RefundRow(id, p.value, payment.provider, Requested, None, key)]);
    var recorded := db.(refunds := db.refunds + [RefundRow(id, p.value, payment.provider, RefundDone, Some(ref), key)]);
    assert requested.refunds[n := requested.refunds[n].(status := RefundDone, providerRefundId := Some(ref))] == recorded.refunds;
    assert !RefundIdTaken(requested, n, Some(ref));
    var ev := Event(eventId, RefundSucceeded, payment.provider, None, payment.txn, Some(ref));
    SyncRefund(recorded, payment.provider, ev, row, now);
  }

  /** The synchronous refund event finds the newest row, which carries its id. */
  lemma SyncRefund(db: Database, provider: string, ev: Event, row: nat, now: int)
    requires db.refunds != [] && ev.kind == RefundSucceeded && ev.refundRef.Some?
    requires db.refunds[|db.refunds| - 1].providerRefundId == ev.refundRef && db.refunds[|db.refunds| - 1].order < |db.book.orders|
    requires !RefundIdTaken(db, |db.refunds| - 1, ev.refundRef)
    requires forall e :: e in db.events ==> e.event.eventId != ev.eventId
    ensures var after := Deliver(db, provider, ev, row, now, NoFault);
      after.refunds[|db.refunds| - 1].status == RefundDone
      && after.book.orders[db.refunds[|db.refunds| - 1].order].payment == Refunded
  {
    NewestIsLast(db.refunds, (r: RefundRow) => Same(r.providerRefundId, ev.refundRef) || (r.provider == ev.provider && r.status == RefundProcessing));
  }
}
